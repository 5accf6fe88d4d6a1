/** What the editor core guarantees, stated over the functions of `Editor`. */
module EditorProperties {
  import opened Terminal
  import opened Events
  import opened Editor

  // ---------------------------------------------------------------------------
  // Cursor movement

  /** Any sequence of moves under one size keeps a cursor that starts within
      the bounds within them. */
  lemma {:induction false} MovesStayInBounds(p: Position, directions: seq<Direction>, size: Size)
    requires InBounds(p, size)
    ensures InBounds(Moves(p, directions, size), size)
    decreases |directions|
  {
    if directions != [] {
      MovesStayInBounds(Move(p, directions[0], size), directions[1..], size);
    }
  }

  /** From the default state, every sequence of moves keeps `0 <= x <= width`
      and `0 <= y <= height`. */
  lemma DefaultMovesStayInBounds(directions: seq<Direction>, size: Size)
    ensures InBounds(Moves(Initial.cursor, directions, size), size)
  {
    MovesStayInBounds(Initial.cursor, directions, size);
  }

  function Repeat(direction: Direction, n: nat): (r: seq<Direction>)
    ensures |r| == n
    ensures forall i :: 0 <= i < n ==> r[i] == direction
  {
    seq(n, _ => direction)
  }

  lemma {:induction false} MovesConcat(p: Position, a: seq<Direction>, b: seq<Direction>, size: Size)
    ensures Moves(p, a + b, size) == Moves(Moves(p, a, size), b, size)
    decreases |a|
  {
    if a != [] {
      assert (a + b)[0] == a[0];
      assert (a + b)[1..] == a[1..] + b;
      MovesConcat(Move(p, a[0], size), a[1..], b, size);
    } else {
      assert a + b == b;
    }
  }

  lemma {:induction false} RepeatRight(p: Position, n: nat, size: Size)
    requires p.x + n <= size.width
    ensures Moves(p, Repeat(Right, n), size) == p.(x := p.x + n)
    decreases n
  {
    if n > 0 {
      assert Repeat(Right, n)[1..] == Repeat(Right, n - 1);
      RepeatRight(p.(x := p.x + 1), n - 1, size);
    }
  }

  lemma {:induction false} RepeatDown(p: Position, n: nat, size: Size)
    requires p.y + n <= size.height
    ensures Moves(p, Repeat(Down, n), size) == p.(y := p.y + n)
    decreases n
  {
    if n > 0 {
      assert Repeat(Down, n)[1..] == Repeat(Down, n - 1);
      RepeatDown(p.(y := p.y + 1), n - 1, size);
    }
  }

  /** The bounds are tight: every cell within them, including the column
      `x == width` and the row `y == height`, is reached from the origin. */
  lemma ReachEveryCell(target: Position, size: Size)
    requires InBounds(target, size)
    ensures Moves(Initial.cursor, Repeat(Right, target.x) + Repeat(Down, target.y), size) == target
  {
    MovesConcat(Initial.cursor, Repeat(Right, target.x), Repeat(Down, target.y), size);
    RepeatRight(Initial.cursor, target.x, size);
    RepeatDown(Position(target.x, 0), target.y, size);
  }

  /** Right then Left returns to the start exactly when Right moved. */
  lemma RightThenLeft(p: Position, size: Size)
    requires InBounds(p, size)
    ensures Move(Move(p, Right, size), Left, size) == p <==> p.x < size.width || size.width == 0
  {
  }

  /** Left then Right returns to the start exactly when Left moved. */
  lemma LeftThenRight(p: Position, size: Size)
    requires InBounds(p, size)
    ensures Move(Move(p, Left, size), Right, size) == p <==> p.x > 0 || size.width == 0
  {
  }

  lemma DownThenUp(p: Position, size: Size)
    requires InBounds(p, size)
    ensures Move(Move(p, Down, size), Up, size) == p <==> p.y < size.height || size.height == 0
  {
  }

  lemma UpThenDown(p: Position, size: Size)
    requires InBounds(p, size)
    ensures Move(Move(p, Up, size), Down, size) == p <==> p.y > 0 || size.height == 0
  {
  }

  /** The bound only holds for the size the cursor moved under: a cursor past
      the width (as after the terminal shrinks) is not moved by Right and stays
      outside the bounds. */
  lemma ShrinkLeavesCursorOutside(p: Position, size: Size)
    requires p.x > size.width
    ensures Move(p, Right, size) == p && !InBounds(p, size)
  {
  }

  // ---------------------------------------------------------------------------
  // Event evaluation

  /** The quit flag is set after an event exactly when it was set before or the
      event is Control+q: nothing clears it. */
  lemma EvaluateQuitIff(s: EditorState, event: Event, size: Size)
    ensures Evaluate(s, event, size).shouldQuit <==> s.shouldQuit || IsQuitKey(event)
  {
  }

  /** `q` with any modifier set other than exactly Control changes nothing. */
  lemma OtherQIgnored(s: EditorState, modifiers: set<Modifier>, kind: KeyEventKind, size: Size)
    requires modifiers != {Control}
    ensures Evaluate(s, Key(Char('q'), modifiers, kind), size) == s
  {
  }

  lemma EvaluateKeepsBounds(s: EditorState, event: Event, size: Size)
    requires InBounds(s.cursor, size)
    ensures InBounds(Evaluate(s, event, size).cursor, size)
  {
  }

  /** After a sequence of events the editor quits exactly when it was already
      quitting or one of the events was Control+q. */
  lemma {:induction false} StepsQuitIff(s: EditorState, events: seq<Event>, size: Size)
    ensures Steps(s, events, size).shouldQuit
        <==> s.shouldQuit || exists j :: 0 <= j < |events| && IsQuitKey(events[j])
    decreases |events|
  {
    if events != [] {
      var next := Evaluate(s, events[0], size);
      StepsQuitIff(next, events[1..], size);
      if exists j :: 0 <= j < |events| && IsQuitKey(events[j]) {
        var j :| 0 <= j < |events| && IsQuitKey(events[j]);
        if j > 0 {
          assert IsQuitKey(events[1..][j - 1]);
        }
      }
      if exists j :: 0 <= j < |events| - 1 && IsQuitKey(events[1..][j]) {
        var j :| 0 <= j < |events| - 1 && IsQuitKey(events[1..][j]);
        assert IsQuitKey(events[j + 1]);
      }
    }
  }

  lemma {:induction false} StepsKeepBounds(s: EditorState, events: seq<Event>, size: Size)
    requires InBounds(s.cursor, size)
    ensures InBounds(Steps(s, events, size).cursor, size)
    decreases |events|
  {
    if events != [] {
      StepsKeepBounds(Evaluate(s, events[0], size), events[1..], size);
    }
  }

  lemma StepsPrefix(s: EditorState, events: seq<Event>, j: nat, size: Size)
    requires j < |events|
    ensures Steps(s, events[..j + 1], size) == Steps(Evaluate(s, events[0], size), events[1..][..j], size)
  {
    assert events[..j + 1][0] == events[0];
    assert events[..j + 1][1..] == events[1..][..j];
  }

  // ---------------------------------------------------------------------------
  // The welcome line

  /** A message at least as wide as the terminal is cut to exactly the width,
      right after the `~` marker. */
  lemma WelcomeLineTruncated(width: nat, message: string)
    requires width <= |message|
    ensures WelcomeLine(width, message) == (['~'] + message)[..width]
    ensures |WelcomeLine(width, message)| == width
  {
    assert Spaces(0) == [];
    assert "~" + Spaces(0) + message == ['~'] + message;
  }

  /** A message narrower than the terminal is shown whole, after the `~`
      marker and a run of spaces. The columns left of it (the `~` and the
      spaces) number `max((width - len) / 2, 1)`, and differ by at most one
      from the free columns right of it. */
  lemma WelcomeLineCentred(width: nat, message: string)
    requires |message| < width
    ensures var line := WelcomeLine(width, message);
      var left := |line| - |message|;
      var right := width - |line|;
      1 <= left && line[left..] == message
      && (forall i :: 1 <= i < left ==> line[i] == ' ')
      && left <= right + 1 && right <= left + 1
      && left == if (width - |message|) / 2 >= 1 then (width - |message|) / 2 else 1
  {
    var padding := SaturatingSub(width, |message|) / 2;
    var spaces := Spaces(SaturatingSub(padding, 1));
    var full := "~" + spaces + message;
    assert |full| <= width;
    assert WelcomeLine(width, message) == full;
    assert full[1 + |spaces|..] == message;
    assert forall i :: 1 <= i < 1 + |spaces| ==> full[i] == spaces[i - 1];
  }

  /** A 26-character banner on a 20-column terminal: no padding, cut to 20. */
  lemma WelcomeLineExample()
    ensures WelcomeLine(20, WelcomeText("demo", "0.1")) == "~demo editor -- vers"
  {
    WelcomeLineTruncated(20, WelcomeText("demo", "0.1"));
  }

  // ---------------------------------------------------------------------------
  // Row layout

  /** The content rule: the row at `height / 3` shows the welcome line, every
      other row the `~` marker. */
  function RowText(size: Size, message: string, row: nat): string {
    if row == size.height / 3 then WelcomeLine(size.width, message) else "~"
  }

  /** Row `i` of a trace laid out three commands per row: a line clear, the
      row's text, and a line break unless it is the screen's last row. */
  predicate RowAt(t: seq<Command>, size: Size, message: string, i: nat) {
    3 * i + 1 < |t|
    && t[3 * i] == ClearLine
    && t[3 * i + 1] == Print(RowText(size, message, i))
    && (i + 1 < size.height ==> 3 * i + 2 < |t| && t[3 * i + 2] == Print("\r\n"))
  }

  lemma {:induction false} RowsUpToLayout(size: Size, message: string, n: nat)
    requires n <= size.height
    ensures |RowsUpTo(size, message, n)| == if n == size.height && n > 0 then 3 * n - 1 else 3 * n
    ensures forall i :: 0 <= i < n ==> RowAt(RowsUpTo(size, message, n), size, message, i)
    decreases n
  {
    if n > 0 {
      var prefix := RowsUpTo(size, message, n - 1);
      var t := RowsUpTo(size, message, n);
      RowsUpToLayout(size, message, n - 1);
      assert t == prefix + Row(size, message, n - 1);
      forall i | 0 <= i < n
        ensures RowAt(t, size, message, i)
      {
        if i < n - 1 {
          assert RowAt(prefix, size, message, i);
        }
      }
    }
  }

  /** The screen is exactly `height` rows of three commands each, less the
      line break after the last row; row `i` is described by `RowAt`. */
  lemma RowsLayout(size: Size, message: string)
    ensures |Rows(size, message)| == if size.height == 0 then 0 else 3 * size.height - 1
    ensures forall i :: 0 <= i < size.height ==> RowAt(Rows(size, message), size, message, i)
  {
    RowsUpToLayout(size, message, size.height);
  }

  /** Every row is preceded by a line clear: `n` rows clear `n` lines. */
  lemma {:induction false} RowsUpToClears(size: Size, message: string, n: nat)
    requires n <= size.height
    ensures Count(ClearLine, RowsUpTo(size, message, n)) == n
    decreases n
  {
    if n > 0 {
      var prefix := RowsUpTo(size, message, n - 1);
      var row := Row(size, message, n - 1);
      assert RowsUpTo(size, message, n) == prefix + row;
      RowsUpToClears(size, message, n - 1);
      RowCounts(size, message, n - 1);
      CountConcat(ClearLine, prefix, row);
    }
  }

  /** Line breaks separate rows: `n` rows end with `n` breaks, or `n - 1` once
      the screen's last row is among them. */
  lemma {:induction false} RowsUpToBreaks(size: Size, message: string, n: nat)
    requires n <= size.height
    ensures Count(Print("\r\n"), RowsUpTo(size, message, n)) == if n == size.height && n > 0 then n - 1 else n
    decreases n
  {
    if n > 0 {
      var prefix := RowsUpTo(size, message, n - 1);
      var row := Row(size, message, n - 1);
      assert RowsUpTo(size, message, n) == prefix + row;
      RowsUpToBreaks(size, message, n - 1);
      RowCounts(size, message, n - 1);
      CountConcat(Print("\r\n"), prefix, row);
    }
  }

  /** One row holds one line clear, and a line break unless it is the last. */
  lemma RowCounts(size: Size, message: string, row: nat)
    requires row < size.height
    ensures Count(ClearLine, Row(size, message, row)) == 1
    ensures Count(Print("\r\n"), Row(size, message, row)) == if row + 1 < size.height then 1 else 0
  {
    var text := RowText(size, message, row);
    assert text == "" || text[0] == '~';
    assert text != "\r\n";
    var sep: seq<Command> := if row + 1 < size.height then [Print("\r\n")] else [];
    assert Row(size, message, row) == [ClearLine] + [Print(text)] + sep;
    CountSingle(ClearLine, ClearLine);
    CountSingle(ClearLine, Print(text));
    CountSingle(Print("\r\n"), ClearLine);
    CountSingle(Print("\r\n"), Print(text));
    if sep != [] {
      CountSingle(ClearLine, Print("\r\n"));
      CountSingle(Print("\r\n"), Print("\r\n"));
    }
    CountConcat(ClearLine, [ClearLine] + [Print(text)], sep);
    CountConcat(ClearLine, [ClearLine], [Print(text)]);
    CountConcat(Print("\r\n"), [ClearLine] + [Print(text)], sep);
    CountConcat(Print("\r\n"), [ClearLine], [Print(text)]);
  }

  lemma RowsCounts(size: Size, message: string)
    ensures Count(ClearLine, Rows(size, message)) == size.height
    ensures Count(Print("\r\n"), Rows(size, message)) == SaturatingSub(size.height, 1)
  {
    RowsUpToClears(size, message, size.height);
    RowsUpToBreaks(size, message, size.height);
  }

  /** Row height 9 puts the welcome line on row 3 and `~` on the others. */
  lemma NineRowsExample(width: nat, message: string)
    ensures forall i :: 0 <= i < 9 && i != 3 ==>
              RowAt(Rows(Size(width, 9), message), Size(width, 9), message, i) && RowText(Size(width, 9), message, i) == "~"
    ensures RowAt(Rows(Size(width, 9), message), Size(width, 9), message, 3)
         && RowText(Size(width, 9), message, 3) == WelcomeLine(width, message)
  {
    RowsLayout(Size(width, 9), message);
  }

  // ---------------------------------------------------------------------------
  // Frames

  /** Rows only clear lines and print. */
  lemma RowsOnlyDraw(size: Size, message: string)
    ensures forall i :: 0 <= i < |Rows(size, message)| ==>
              Rows(size, message)[i].ClearLine? || Rows(size, message)[i].Print?
  {
    var t := Rows(size, message);
    RowsLayout(size, message);
    forall k | 0 <= k < |t|
      ensures t[k].ClearLine? || t[k].Print?
    {
      assert RowAt(t, size, message, k / 3);
    }
  }

  /** Every frame hides the cursor first and ends by showing it and flushing;
      a running frame draws the rows and then puts the cursor at its position,
      a quitting frame clears the screen and says goodbye. */
  lemma FrameShape(s: EditorState, size: Size, message: string)
    ensures var f := Frame(s, size, message);
      |f| >= 4 && f[0] == HideCursor && f[|f| - 2] == ShowCursor && f[|f| - 1] == Execute
      && (s.shouldQuit ==> f == QuitFrame)
      && (!s.shouldQuit ==> f[|f| - 3] == MoveCursorTo(s.cursor) && f[1..|f| - 3] == Rows(size, message))
  {
    var f := Frame(s, size, message);
    if !s.shouldQuit {
      assert f == [HideCursor] + Rows(size, message) + [MoveCursorTo(s.cursor), ShowCursor, Execute];
      assert f[1..|f| - 3] == Rows(size, message);
    }
  }

  /** A frame hides the cursor once and flushes once. */
  lemma FrameCounts(s: EditorState, size: Size, message: string)
    ensures Count(HideCursor, Frame(s, size, message)) == 1
    ensures Count(Execute, Frame(s, size, message)) == 1
  {
    var body := if s.shouldQuit then [ClearScreen, Print(Goodbye)]
                else Rows(size, message) + [MoveCursorTo(s.cursor)];
    assert Frame(s, size, message) == [HideCursor] + body + [ShowCursor] + [Execute];
    RowsOnlyDraw(size, message);
    CountAbsent(HideCursor, body);
    CountAbsent(Execute, body);
    CountSingle(HideCursor, HideCursor);
    CountSingle(HideCursor, ShowCursor);
    CountSingle(HideCursor, Execute);
    CountSingle(Execute, HideCursor);
    CountSingle(Execute, ShowCursor);
    CountSingle(Execute, Execute);
    CountConcat(HideCursor, [HideCursor] + body + [ShowCursor], [Execute]);
    CountConcat(HideCursor, [HideCursor] + body, [ShowCursor]);
    CountConcat(HideCursor, [HideCursor], body);
    CountConcat(Execute, [HideCursor] + body + [ShowCursor], [Execute]);
    CountConcat(Execute, [HideCursor] + body, [ShowCursor]);
    CountConcat(Execute, [HideCursor], body);
  }

  // ---------------------------------------------------------------------------
  // The loop

  /** The loop draws one frame per consumed event plus one; frame `j` shows the
      state after the first `j` events; every consumed event was read while
      running; and it ends quitting or with the input used up. */
  lemma {:induction false} RunSpec(s: EditorState, events: seq<Event>, size: Size, message: string)
    ensures var r := Run(s, events, size, message);
      r.consumed <= |events|
      && |r.frames| == r.consumed + 1
      && r.final == Steps(s, events[..r.consumed], size)
      && (forall j :: 0 <= j <= r.consumed ==> r.frames[j] == Frame(Steps(s, events[..j], size), size, message))
      && (forall j :: 0 <= j < r.consumed ==> !Steps(s, events[..j], size).shouldQuit)
      && (r.final.shouldQuit || r.consumed == |events|)
    decreases |events|
  {
    var r := Run(s, events, size, message);
    if s.shouldQuit || events == [] {
      assert events[..0] == [];
    } else {
      var next := Evaluate(s, events[0], size);
      var rest := Run(next, events[1..], size, message);
      RunSpec(next, events[1..], size, message);
      assert events[..0] == [];
      StepsPrefix(s, events, rest.consumed, size);
      forall j | 0 <= j <= r.consumed
        ensures r.frames[j] == Frame(Steps(s, events[..j], size), size, message)
      {
        if j > 0 {
          StepsPrefix(s, events, j - 1, size);
        }
      }
      forall j | 0 <= j < r.consumed
        ensures !Steps(s, events[..j], size).shouldQuit
      {
        if j > 0 {
          StepsPrefix(s, events, j - 1, size);
        }
      }
    }
  }

  /** Started running, the loop consumes events up to and including the first
      Control+q, then draws the quit frame and stops. */
  lemma RunStopsAtFirstQuit(s: EditorState, events: seq<Event>, k: nat, size: Size, message: string)
    requires !s.shouldQuit
    requires k < |events| && IsQuitKey(events[k])
    requires forall j :: 0 <= j < k ==> !IsQuitKey(events[j])
    ensures var r := Run(s, events, size, message);
      r.consumed == k + 1 && |r.frames| == k + 2 && r.final.shouldQuit && r.frames[k + 1] == QuitFrame
      && r.final.cursor == Steps(s, events[..k], size).cursor
  {
    var r := Run(s, events, size, message);
    RunSpec(s, events, size, message);
    if r.consumed <= k {
      StepsQuitIff(s, events[..r.consumed], size);
      assert false;
    }
    if r.consumed > k + 1 {
      StepsQuitIff(s, events[..k + 1], size);
      assert false;
    }
    assert events[..k + 1] == events[..k] + [events[k]];
    StepsSnoc(s, events[..k], events[k], size);
    FrameShape(r.final, size, message);
  }

  lemma {:induction false} StepsSnoc(s: EditorState, events: seq<Event>, event: Event, size: Size)
    ensures Steps(s, events + [event], size) == Evaluate(Steps(s, events, size), event, size)
    decreases |events|
  {
    if events == [] {
      assert events + [event] == [event];
      assert [event][1..] == [];
    } else {
      assert (events + [event])[1..] == events[1..] + [event];
      StepsSnoc(Evaluate(s, events[0], size), events[1..], event, size);
    }
  }

  /** Without Control+q in the input, the loop consumes all of it and is still
      running when the input runs out. */
  lemma RunWithoutQuit(s: EditorState, events: seq<Event>, size: Size, message: string)
    requires !s.shouldQuit
    requires forall j :: 0 <= j < |events| ==> !IsQuitKey(events[j])
    ensures var r := Run(s, events, size, message);
      r.consumed == |events| && !r.final.shouldQuit && r.final == Steps(s, events, size)
  {
    var r := Run(s, events, size, message);
    RunSpec(s, events, size, message);
    StepsQuitIff(s, events[..r.consumed], size);
    assert events[..|events|] == events;
  }

  /** A loop started after the quit flag is set draws the quit frame alone. */
  lemma RunFromQuitting(s: EditorState, events: seq<Event>, size: Size, message: string)
    requires s.shouldQuit
    ensures Run(s, events, size, message) == Session([QuitFrame], 0, s)
  {
    FrameShape(s, size, message);
  }

  /** The loop keeps the cursor within the bounds of the (fixed) size. */
  lemma RunKeepsBounds(s: EditorState, events: seq<Event>, size: Size, message: string)
    requires InBounds(s.cursor, size)
    ensures InBounds(Run(s, events, size, message).final.cursor, size)
  {
    RunSpec(s, events, size, message);
    StepsKeepBounds(s, events[..Run(s, events, size, message).consumed], size);
  }

  /** The terminal is flushed once per frame: one flush per consumed event plus one. */
  lemma RunFlushes(s: EditorState, events: seq<Event>, size: Size, message: string)
    ensures var r := Run(s, events, size, message);
      Count(Execute, Flatten(r.frames)) == r.consumed + 1
  {
    var r := Run(s, events, size, message);
    RunSpec(s, events, size, message);
    forall i | 0 <= i < |r.frames|
      ensures Count(Execute, r.frames[i]) == 1
    {
      FrameCounts(Steps(s, events[..i], size), size, message);
    }
    CountFlatten(Execute, r.frames);
  }
}
