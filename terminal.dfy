/** The terminal as the editor core sees it.

    The real terminal driver (raw mode, the size query, the queued output and
    its flush) is not part of this model. Here the terminal's size is a value
    handed to each operation, and everything the editor asks the terminal to
    do is recorded, in order, as a trace of commands. */
module Terminal {

  /** Terminal dimensions, in columns and rows (`usize` in the driver). */
  datatype Size = Size(width: nat, height: nat)

  /** A zero-based cell: `x` is the column, `y` the row. */
  datatype Position = Position(x: nat, y: nat)

  /** One primitive request to the terminal. `Execute` flushes what has been
      queued so far. */
  datatype Command =
    | HideCursor
    | ShowCursor
    | ClearLine
    | ClearScreen
    | Print(text: string)
    | MoveCursorTo(position: Position)
    | Execute

  /** `usize::saturating_sub`: the difference, or zero when it would be negative. */
  function SaturatingSub(a: nat, b: nat): (r: nat)
    ensures r + b >= a
    ensures r == 0 || r + b == a
  {
    if a >= b then a - b else 0
  }

  /** Number of occurrences of `c` in the trace `t`. */
  function Count(c: Command, t: seq<Command>): nat
    decreases |t|
  {
    if t == [] then 0 else Count(c, t[..|t| - 1]) + (if t[|t| - 1] == c then 1 else 0)
  }

  lemma {:induction false} CountConcat(c: Command, a: seq<Command>, b: seq<Command>)
    ensures Count(c, a + b) == Count(c, a) + Count(c, b)
    decreases |b|
  {
    if b != [] {
      assert (a + b)[..|a + b| - 1] == a + b[..|b| - 1];
      CountConcat(c, a, b[..|b| - 1]);
    } else {
      assert a + b == a;
    }
  }

  lemma CountSingle(c: Command, x: Command)
    ensures Count(c, [x]) == if x == c then 1 else 0
  {
    assert [x][..0] == [];
  }

  lemma {:induction false} CountAbsent(c: Command, t: seq<Command>)
    requires forall i :: 0 <= i < |t| ==> t[i] != c
    ensures Count(c, t) == 0
    decreases |t|
  {
    if t != [] {
      CountAbsent(c, t[..|t| - 1]);
    }
  }

  /** The single trace made by writing the given pieces one after another. */
  function Flatten(pieces: seq<seq<Command>>): seq<Command>
    decreases |pieces|
  {
    if pieces == [] then [] else Flatten(pieces[..|pieces| - 1]) + pieces[|pieces| - 1]
  }

  lemma {:induction false} FlattenConcat(a: seq<seq<Command>>, b: seq<seq<Command>>)
    ensures Flatten(a + b) == Flatten(a) + Flatten(b)
    decreases |b|
  {
    if b == [] {
      assert a + b == a;
    } else {
      assert (a + b)[..|a + b| - 1] == a + b[..|b| - 1];
      FlattenConcat(a, b[..|b| - 1]);
    }
  }

  /** If every piece holds `c` exactly once, the flattened trace holds it once per piece. */
  lemma {:induction false} CountFlatten(c: Command, pieces: seq<seq<Command>>)
    requires forall i :: 0 <= i < |pieces| ==> Count(c, pieces[i]) == 1
    ensures Count(c, Flatten(pieces)) == |pieces|
    decreases |pieces|
  {
    if pieces != [] {
      var init := pieces[..|pieces| - 1];
      CountFlatten(c, init);
      CountConcat(c, Flatten(init), pieces[|pieces| - 1]);
    }
  }
}
