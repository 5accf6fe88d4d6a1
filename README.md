# hecto editor core, modelled in Dafny

This project models the control core of the `hecto` terminal editor prototype
(`src/editor.rs`). The core has three parts:

- **Cursor movement.** `Editor::move_cursor` with its `Direction` enum. Each step
  moves one axis by at most one cell. Left and Up stop at 0. Right and Down stop
  at the terminal's width and height, and that bound is inclusive.
- **Event evaluation and the loop.** `Editor::evaluate_event` and `Editor::repl`
  form a two-state machine, Running then Quitting. Control+`q` sets
  `should_quit`; `h`, `j`, `k`, `l` move the cursor; every other event is ignored.
  The loop draws a frame, stops once quitting, and otherwise reads and evaluates
  one event.
- **Frame rendering.** `refresh_screen`, `draw_rows`, `draw_welcome_message` and
  `draw_empty_row` build one frame: `height` rows of `~`, with a centred, truncated
  welcome banner on row `height / 3` and line breaks between rows. A quitting
  frame instead clears the screen and prints `Goodbye.`.

The terminal is abstracted. Its size is a value passed to each operation.
Everything the editor asks of the terminal is a `Command` (hide or show the
cursor, clear a line or the screen, print, move the cursor, flush), and the
rendering operations return the commands they would issue, in order.

Files and modules:

- `terminal.dfy` (`Terminal`): `Size`, `Position`, `Command`, `usize::saturating_sub`,
  and counting and concatenation over command traces.
- `events.dfy` (`Events`): the shape of crossterm's input events (key code,
  modifier set, kind, and the other event categories).
- `editor.dfy` (`Editor`): the specification functions (`Move`, `Evaluate`,
  `WelcomeLine`, `Row`, `Rows`, `Frame`, `Run`). It also holds the class `Editor`,
  whose fields `shouldQuit` and `cursorPosition` its methods update in place. Each
  method is proved equal to its function.
- `properties.dfy` (`EditorProperties`): the lemmas about those functions.

The welcome banner is cut to at most `width` characters, and to exactly `width`
when the message is at least as wide as the terminal (`WelcomeLineTruncated`).
So the 26-character banner `"demo editor -- version 0.1"` on a 20-column terminal gives
`"~demo editor -- vers"` (`WelcomeLineExample`).

The cursor's upper bound is inclusive, `x <= width` and `y <= height`, so the
cursor can reach one column and one row past the last visible cell
(`ReachEveryCell`). The bound is modelled as written.

## Model

| member | source | states |
|---|---|---|
| `Editor.Editor.Default` | src/editor.rs:16-21 | the new editor is not quitting and its cursor is at (0, 0) |
| `Editor.Move` | src/editor.rs:113-137 | a move changes only its own axis; Left and Up decrement and stop at 0; Right and Down increment only while below width or height; a cursor within the bounds stays within them |
| `Editor.Moves` | src/editor.rs:113-137 | the cursor after a sequence of `move_cursor` calls under one size; its bounds, composition and reach are stated by `MovesStayInBounds`, `MovesConcat` and `ReachEveryCell` |
| `Editor.Editor.MoveCursor` | src/editor.rs:113-137 | the cursor field becomes `Move` of its old value under the given size; the quit flag is unchanged |
| `Editor.Evaluate` | src/editor.rs:42-58 | Control+q with exactly the Control modifier sets the quit flag and keeps the cursor; h/j/k/l under any modifiers move Left/Down/Up/Right; every other event, including every non-key event, leaves the state unchanged |
| `Editor.Editor.EvaluateEvent` | src/editor.rs:42-58 | the editor's fields become `Evaluate` of their old values |
| `Editor.Steps` | src/editor.rs:42-58 | the state after `evaluate_event` on each event in turn; its quit flag and bounds are stated by `StepsQuitIff` and `StepsKeepBounds` |
| `Terminal.SaturatingSub` | src/editor.rs:81-82 | the result plus the subtrahend covers the minuend, and it is either zero or the exact difference |
| `Editor.Spaces` | src/editor.rs:82 | `n` characters, all spaces |
| `Editor.Truncate` | src/editor.rs:84 | a prefix of the string, of length `min(n, len)` |
| `Editor.WelcomeLine` | src/editor.rs:74-87 | the banner row is never longer than the width; it is empty at width 0; it starts with `~` at width 1 or more |
| `EditorProperties.WelcomeLineTruncated` | src/editor.rs:81-84 | a message at least as wide as the terminal gives exactly `width` characters: `~` followed by the start of the message |
| `EditorProperties.WelcomeLineCentred` | src/editor.rs:78-84 | a message narrower than the terminal is shown whole after `~` and spaces; the columns left of it (the `~` and the spaces) number `max((width - len) / 2, 1)`, so it sits at most one column left of centre (one right when a single column is free), and the margins differ by at most one |
| `EditorProperties.WelcomeLineExample` | src/editor.rs:75-84 | a 26-character banner at width 20 renders as `~demo editor -- vers` |
| `Editor.DrawWelcomeMessage` | src/editor.rs:74-87 | a single print of `WelcomeLine` at the terminal's width; its text is fixed by `WelcomeLineTruncated` and `WelcomeLineCentred` |
| `Editor.DrawEmptyRow` | src/editor.rs:89-92 | a single print of `~`; `RowsLayout` shows it is what every row except row `height / 3` prints |
| `Editor.Row` | src/editor.rs:96-108 | the commands of one iteration of the row loop: a line clear, the welcome line or `~`, and a break unless it is the last row; stated by `RowCounts` and `RowsUpToLayout` |
| `Editor.RowsUpTo` | src/editor.rs:94-109 | the commands of the first `n` iterations of the row loop; layout and counts in `RowsUpToLayout`, `RowsUpToClears` and `RowsUpToBreaks` |
| `Editor.Rows` | src/editor.rs:94-111 | the commands of the whole row loop; fixed by `RowsLayout`, counted by `RowsCounts` |
| `Editor.Editor.DrawRows` | src/editor.rs:94-111 | the row loop's output equals `Rows` of the size and message |
| `EditorProperties.RowsUpToLayout` | src/editor.rs:96-109 | after `n` iterations there are 3 commands per row, less the missing break after the last row; each row is a line clear, its text, and a break unless it is the last |
| `EditorProperties.RowsLayout` | src/editor.rs:94-111 | the screen has `3 * height - 1` commands (none when the height is 0); row `height / 3` prints the welcome line, every other row prints `~`, and every row but the last ends with `"\r\n"` |
| `EditorProperties.RowCounts` | src/editor.rs:97-108 | one row holds one line clear, and one line break unless it is the last row |
| `EditorProperties.RowsUpToClears` | src/editor.rs:96-97 | `n` iterations clear `n` lines |
| `EditorProperties.RowsUpToBreaks` | src/editor.rs:96-108 | `n` iterations print `n` line breaks, or `n - 1` once the last row is drawn |
| `EditorProperties.RowsCounts` | src/editor.rs:94-111 | a screen clears exactly `height` lines and prints `height - 1` separators (none for height 0) |
| `EditorProperties.NineRowsExample` | src/editor.rs:101-105 | with 9 rows the welcome line is row 3 and rows 0-2 and 4-8 print `~` |
| `EditorProperties.RowsOnlyDraw` | src/editor.rs:94-111 | drawing the rows only clears lines and prints |
| `Editor.Frame` | src/editor.rs:60-72 | the commands of one frame, in the source's order; shape and counts in `FrameShape` and `FrameCounts` |
| `Editor.Editor.RefreshScreen` | src/editor.rs:60-72 | the frame returned equals `Frame` of the editor's state |
| `EditorProperties.FrameShape` | src/editor.rs:60-72 | every frame starts with hiding the cursor and ends with showing it and flushing; a quitting frame is clear-screen plus `Goodbye.\r\n`; a running frame is the rows and then a move of the cursor to its position |
| `EditorProperties.FrameCounts` | src/editor.rs:60-72 | a frame hides the cursor exactly once and flushes exactly once |
| `Editor.Run` | src/editor.rs:30-40 | the frames, consumed-event count and final state of the loop over a finite input; fixed by `RunSpec`, with `RunStopsAtFirstQuit`, `RunWithoutQuit` and `RunFromQuitting` for the three ways it ends |
| `Editor.Editor.Repl` | src/editor.rs:30-40 | the loop's output trace, consumed-event count and final state are those of `Run` from the editor's starting state |
| `EditorProperties.RunSpec` | src/editor.rs:30-40 | the loop draws one frame per consumed event plus one; frame `j` shows the state after the first `j` events; each consumed event was read while running; it ends quitting or with the input used up |
| `EditorProperties.RunStopsAtFirstQuit` | src/editor.rs:30-40 | from a running state the loop consumes events up to and including the first Control+q, then draws the quit frame and stops, with the cursor where it was before that key |
| `EditorProperties.RunWithoutQuit` | src/editor.rs:30-40 | without Control+q in the input, every event is consumed and the editor is still running |
| `EditorProperties.RunFromQuitting` | src/editor.rs:33-35 | a loop entered while quitting draws the quit frame alone and consumes nothing |
| `EditorProperties.RunKeepsBounds` | src/editor.rs:30-40 | the loop keeps a cursor that starts within the bounds within them |
| `EditorProperties.RunFlushes` | src/editor.rs:30-40 | the output holds one flush per frame: the consumed-event count plus one |
| `EditorProperties.MovesStayInBounds` | src/editor.rs:113-137 | any sequence of moves under one size keeps a cursor within `0 <= x <= width`, `0 <= y <= height` |
| `EditorProperties.DefaultMovesStayInBounds` | src/editor.rs:16-21 | starting from the default cursor, every sequence of moves stays within the bounds |
| `EditorProperties.ReachEveryCell` | src/editor.rs:120-134 | every cell within the inclusive bounds, including column `width` and row `height`, is reached from (0, 0) by Right moves then Down moves |
| `EditorProperties.RightThenLeft` | src/editor.rs:115-134 | Right then Left returns to the start exactly when Right moved (or the width is 0) |
| `EditorProperties.LeftThenRight` | src/editor.rs:115-134 | Left then Right returns to the start exactly when Left moved (or the width is 0) |
| `EditorProperties.DownThenUp` | src/editor.rs:120-129 | Down then Up returns to the start exactly when Down moved (or the height is 0) |
| `EditorProperties.UpThenDown` | src/editor.rs:120-129 | Up then Down returns to the start exactly when Up moved (or the height is 0) |
| `EditorProperties.ShrinkLeavesCursorOutside` | src/editor.rs:130-134 | for every cursor past the width (as after the terminal shrinks), Right leaves it where it is, outside the bounds |
| `EditorProperties.EvaluateQuitIff` | src/editor.rs:48-49 | after an event the quit flag is set exactly when it was set before or the event is Control+q, so nothing clears it |
| `EditorProperties.OtherQIgnored` | src/editor.rs:48-55 | `q` with any modifier set other than exactly Control changes nothing |
| `EditorProperties.EvaluateKeepsBounds` | src/editor.rs:47-56 | evaluating any event keeps the cursor within the bounds |
| `EditorProperties.StepsQuitIff` | src/editor.rs:42-58 | after a sequence of events the editor is quitting exactly when it already was or one of the events was Control+q |
| `EditorProperties.StepsKeepBounds` | src/editor.rs:42-58 | evaluating any sequence of events keeps the cursor within the bounds |

## Left out

- `Editor::run` (src/editor.rs:23-28) is left out: it only brackets `repl` with the terminal's raw-mode `initialize` and `terminate` and unwraps the result. The terminal module is not part of this model.
- I/O errors are left out. Every `?` on a terminal call, and the `.unwrap()` in the movement arms, assume the primitive succeeds, so no error paths are modelled.
- The blocking `read()` is replaced by a finite sequence of events. When the sequence runs out while the editor is still running, `Run` and `Editor.Editor.Repl` stop after drawing the current frame, where the real editor would wait for the next key.
- Resizes are left out within one call. `draw_rows` and `draw_welcome_message` query the size separately, and the model gives both the same size. `Editor.Editor.Repl` runs under one fixed size. Single moves take the size as a parameter, so `ShrinkLeavesCursorOutside` can show what a shrink does.
- `NAME` and `VERSION` come from `env!` at build time and are left out. The banner is a `message` parameter, which `WelcomeText` can build from a name and a version. Lengths are counted in characters, which equal bytes for the ASCII banner. The panic `String::truncate` raises when cutting inside a multi-byte character is not modelled.
- The `usize` arithmetic needs no wrap-around model. `x + 1` and `y + 1` happen only below the width or height, and `current_row + 1` only below the height, so none of them can overflow.
- What the terminal does with the commands (crossterm's queueing, the actual screen) is left out. The model records only which commands are issued, and in what order.
