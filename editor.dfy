/** The editor core: cursor movement, event evaluation, frame rendering and the
    render/read/evaluate loop.

    The behaviour is given twice: once as functions over values (the
    specification, used by the lemmas in `EditorProperties`), and once as the
    `Editor` class whose fields the methods update in place, each method proved
    to agree with its function. */
module Editor {
  import opened Terminal
  import opened Events

  datatype Option<T> = None | Some(value: T)

  datatype Direction = Up | Down | Left | Right

  /** The two fields of the editor: the quit flag and the cursor. */
  datatype EditorState = EditorState(shouldQuit: bool, cursor: Position)

  /** The state `Editor::default` builds. */
  const Initial: EditorState := EditorState(false, Position(0, 0))

  /** The cursor lies within the inclusive bounds `x <= width`, `y <= height`. */
  predicate InBounds(p: Position, size: Size) {
    p.x <= size.width && p.y <= size.height
  }

  // ---------------------------------------------------------------------------
  // Cursor movement

  /** One step of the cursor: Left and Up stop at 0, Right and Down stop at the
      terminal's width and height (so the cursor can reach `x == width`). */
  function Move(p: Position, direction: Direction, size: Size): (q: Position)
    ensures direction == Left || direction == Right ==> q.y == p.y
    ensures direction == Up || direction == Down ==> q.x == p.x
    ensures direction == Left ==> q.x == SaturatingSub(p.x, 1)
    ensures direction == Up ==> q.y == SaturatingSub(p.y, 1)
    ensures direction == Right ==> q.x == (if p.x < size.width then p.x + 1 else p.x)
    ensures direction == Down ==> q.y == (if p.y < size.height then p.y + 1 else p.y)
    ensures InBounds(p, size) ==> InBounds(q, size)
  {
    match direction
    case Left => if p.x > 0 then p.(x := p.x - 1) else p
    case Down => if p.y < size.height then p.(y := p.y + 1) else p
    case Up => if p.y > 0 then p.(y := p.y - 1) else p
    case Right => if p.x < size.width then p.(x := p.x + 1) else p
  }

  /** The cursor after a whole sequence of moves under one terminal size. */
  function Moves(p: Position, directions: seq<Direction>, size: Size): Position
    decreases |directions|
  {
    if directions == [] then p else Moves(Move(p, directions[0], size), directions[1..], size)
  }

  // ---------------------------------------------------------------------------
  // Event evaluation

  /** Control+q, with no other modifier held, whatever the key event's kind. */
  predicate IsQuitKey(event: Event) {
    event.Key? && event.code == Char('q') && event.modifiers == {Control}
  }

  /** The vi keys, under any modifiers: h, j, k, l move Left, Down, Up, Right. */
  function KeyDirection(event: Event): Option<Direction> {
    if event.Key? && event.code.Char? then
      var c := event.code.c;
      if c == 'h' then Some(Left)
      else if c == 'j' then Some(Down)
      else if c == 'k' then Some(Up)
      else if c == 'l' then Some(Right)
      else None
    else None
  }

  /** The effect of one input event: the quit key sets the flag, a vi key moves
      the cursor, and everything else leaves the state as it is. */
  function Evaluate(s: EditorState, event: Event, size: Size): (next: EditorState)
    ensures IsQuitKey(event) ==> next == s.(shouldQuit := true)
    ensures !IsQuitKey(event) && KeyDirection(event).Some? ==>
              next == s.(cursor := Move(s.cursor, KeyDirection(event).value, size))
    ensures !IsQuitKey(event) && KeyDirection(event).None? ==> next == s
  {
    match event
    case Key(Char(c), modifiers, _) =>
      if c == 'q' && modifiers == {Control} then s.(shouldQuit := true)
      else if c == 'h' then s.(cursor := Move(s.cursor, Left, size))
      else if c == 'j' then s.(cursor := Move(s.cursor, Down, size))
      else if c == 'k' then s.(cursor := Move(s.cursor, Up, size))
      else if c == 'l' then s.(cursor := Move(s.cursor, Right, size))
      else s
    case _ => s
  }

  /** The state after evaluating every event of `events` in turn. */
  function Steps(s: EditorState, events: seq<Event>, size: Size): EditorState
    decreases |events|
  {
    if events == [] then s else Steps(Evaluate(s, events[0], size), events[1..], size)
  }

  // ---------------------------------------------------------------------------
  // Rendering

  /** The banner text `"<name> editor -- version <version>"`. */
  function WelcomeText(name: string, version: string): string {
    name + " editor -- version " + version
  }

  function Spaces(n: nat): (r: string)
    ensures |r| == n
    ensures forall i :: 0 <= i < n ==> r[i] == ' '
  {
    seq(n, _ => ' ')
  }

  /** `String::truncate`: keep the first `n` characters, or all when there are fewer. */
  function Truncate(s: string, n: nat): (r: string)
    ensures |r| == if n < |s| then n else |s|
    ensures r == s[..|r|]
  {
    if n <= |s| then s[..n] else s
  }

  /** The welcome row: a `~` marker, then spaces, then the message, cut to the width. */
  function WelcomeLine(width: nat, message: string): (line: string)
    ensures |line| <= width
    ensures width == 0 ==> line == ""
    ensures width > 0 ==> |line| > 0 && line[0] == '~'
  {
    var padding := SaturatingSub(width, |message|) / 2;
    var spaces := Spaces(SaturatingSub(padding, 1));
    Truncate("~" + spaces + message, width)
  }

  function DrawWelcomeMessage(size: Size, message: string): seq<Command> {
    [Print(WelcomeLine(size.width, message))]
  }

  function DrawEmptyRow(): seq<Command> {
    [Print("~")]
  }

  /** The commands for row `row`: clear it, draw its content, and end it with a
      line break unless it is the last row. */
  function Row(size: Size, message: string, row: nat): seq<Command> {
    [ClearLine]
    + (if row == size.height / 3 then DrawWelcomeMessage(size, message) else DrawEmptyRow())
    + (if row + 1 < size.height then [Print("\r\n")] else [])
  }

  /** The commands for rows `0 .. n - 1`. */
  function RowsUpTo(size: Size, message: string, n: nat): seq<Command>
    decreases n
  {
    if n == 0 then [] else RowsUpTo(size, message, n - 1) + Row(size, message, n - 1)
  }

  /** All rows of the screen. */
  function Rows(size: Size, message: string): seq<Command> {
    RowsUpTo(size, message, size.height)
  }

  const Goodbye: string := "Goodbye.\r\n"

  /** The frame drawn once the quit flag is set. */
  const QuitFrame: seq<Command> := [HideCursor, ClearScreen, Print(Goodbye), ShowCursor, Execute]

  /** One full frame for state `s`. */
  function Frame(s: EditorState, size: Size, message: string): seq<Command> {
    [HideCursor]
    + (if s.shouldQuit then [ClearScreen, Print(Goodbye)]
       else Rows(size, message) + [MoveCursorTo(s.cursor)])
    + [ShowCursor, Execute]
  }

  // ---------------------------------------------------------------------------
  // The loop

  /** What one run of the loop produced: the frames it drew, in order, the
      number of events it consumed, and the state it ended in. */
  datatype Session = Session(frames: seq<seq<Command>>, consumed: nat, final: EditorState)

  /** The loop over a finite input: draw a frame; stop when quitting; otherwise
      consume one event. When the input runs out the loop stops too (the
      editor would now be waiting for a key). */
  function Run(s: EditorState, events: seq<Event>, size: Size, message: string): Session
    decreases |events|
  {
    var frame := Frame(s, size, message);
    if s.shouldQuit || events == [] then Session([frame], 0, s)
    else
      var rest := Run(Evaluate(s, events[0], size), events[1..], size, message);
      Session([frame] + rest.frames, rest.consumed + 1, rest.final)
  }

  /** The session `later`, preceded by the frames already drawn. */
  function Resume(drawn: seq<seq<Command>>, later: Session): Session {
    Session(drawn + later.frames, |drawn| + later.consumed, later.final)
  }

  lemma RunStops(s: EditorState, events: seq<Event>, size: Size, message: string)
    requires s.shouldQuit || events == []
    ensures Run(s, events, size, message) == Session([Frame(s, size, message)], 0, s)
  {
  }

  lemma RunStep(s: EditorState, events: seq<Event>, size: Size, message: string)
    requires !s.shouldQuit && events != []
    ensures Run(s, events, size, message)
         == Resume([Frame(s, size, message)], Run(Evaluate(s, events[0], size), events[1..], size, message))
  {
  }

  lemma ResumeTwice(first: seq<seq<Command>>, second: seq<seq<Command>>, later: Session)
    ensures Resume(first, Resume(second, later)) == Resume(first + second, later)
  {
    assert first + (second + later.frames) == (first + second) + later.frames;
  }

  lemma FlattenSnoc(pieces: seq<seq<Command>>, last: seq<Command>)
    ensures Flatten(pieces + [last]) == Flatten(pieces) + last
  {
    assert (pieces + [last])[..|pieces|] == pieces;
  }

  // ---------------------------------------------------------------------------
  // The editor object

  class Editor {
    var shouldQuit: bool
    var cursorPosition: Position

    function State(): EditorState
      reads this
    {
      EditorState(shouldQuit, cursorPosition)
    }

    /** `Editor::default`: not quitting, cursor at the origin. */
    constructor Default()
      ensures State() == Initial
    {
      shouldQuit := false;
      cursorPosition := Position(0, 0);
    }

    method MoveCursor(direction: Direction, size: Size)
      modifies this
      ensures cursorPosition == Move(old(cursorPosition), direction, size)
      ensures shouldQuit == old(shouldQuit)
    {
      match direction {
        case Left =>
          if cursorPosition.x > 0 {
            cursorPosition := cursorPosition.(x := cursorPosition.x - 1);
          }
        case Down =>
          if cursorPosition.y < size.height {
            cursorPosition := cursorPosition.(y := cursorPosition.y + 1);
          }
        case Up =>
          if cursorPosition.y > 0 {
            cursorPosition := cursorPosition.(y := cursorPosition.y - 1);
          }
        case Right =>
          if cursorPosition.x < size.width {
            cursorPosition := cursorPosition.(x := cursorPosition.x + 1);
          }
      }
    }

    method EvaluateEvent(event: Event, size: Size)
      modifies this
      ensures State() == Evaluate(old(State()), event, size)
    {
      match event {
        case Key(Char(c), modifiers, _) =>
          if c == 'q' && modifiers == {Control} {
            shouldQuit := true;
          } else if c == 'h' {
            MoveCursor(Left, size);
          } else if c == 'j' {
            MoveCursor(Down, size);
          } else if c == 'k' {
            MoveCursor(Up, size);
          } else if c == 'l' {
            MoveCursor(Right, size);
          }
        case _ =>
      }
    }

    /** `Editor::draw_rows`: one pass over rows `0 .. height - 1`. */
    static method DrawRows(size: Size, message: string) returns (out: seq<Command>)
      ensures out == Rows(size, message)
    {
      out := [];
      for currentRow := 0 to size.height
        invariant out == RowsUpTo(size, message, currentRow)
      {
        out := out + [ClearLine];
        if currentRow == size.height / 3 {
          out := out + DrawWelcomeMessage(size, message);
        } else {
          out := out + DrawEmptyRow();
        }
        if currentRow + 1 < size.height {
          out := out + [Print("\r\n")];
        }
      }
    }

    /** `Editor::refresh_screen`: the commands of one frame. */
    method RefreshScreen(size: Size, message: string) returns (frame: seq<Command>)
      ensures frame == Frame(State(), size, message)
    {
      frame := [HideCursor];
      if shouldQuit {
        frame := frame + [ClearScreen, Print(Goodbye)];
      } else {
        var rows := DrawRows(size, message);
        frame := frame + rows + [MoveCursorTo(cursorPosition)];
      }
      frame := frame + [ShowCursor, Execute];
    }

    /** `Editor::repl` over the finite input `events`: returns everything sent
        to the terminal and the number of events consumed. */
    method Repl(events: seq<Event>, size: Size, message: string) returns (trace: seq<Command>, consumed: nat)
      modifies this
      ensures var session := Run(old(State()), events, size, message);
                trace == Flatten(session.frames) && consumed == session.consumed && State() == session.final
    {
      ghost var start := State();
      ghost var drawn: seq<seq<Command>> := [];
      trace, consumed := [], 0;
      while true
        invariant consumed <= |events|
        invariant |drawn| == consumed
        invariant trace == Flatten(drawn)
        invariant Run(start, events, size, message) == Resume(drawn, Run(State(), events[consumed..], size, message))
        decreases |events| - consumed
      {
        ghost var later := Run(State(), events[consumed..], size, message);
        var frame := RefreshScreen(size, message);
        FlattenSnoc(drawn, frame);
        if shouldQuit || consumed == |events| {
          // Once quitting, the loop ends here. Without further input the
          // editor would now block, waiting for the next key.
          RunStops(State(), events[consumed..], size, message);
          trace := trace + frame;
          drawn := drawn + [frame];
          break;
        }
        RunStep(State(), events[consumed..], size, message);
        assert events[consumed..][0] == events[consumed];
        assert events[consumed..][1..] == events[consumed + 1..];
        trace := trace + frame;
        ghost var previous := drawn;
        drawn := drawn + [frame];
        EvaluateEvent(events[consumed], size);
        ResumeTwice(previous, [frame], Run(State(), events[consumed + 1..], size, message));
        consumed := consumed + 1;
      }
    }
  }
}
