/**
 * The terminal surface the animations draw on. Every call either writes an
 * exact control string to standard output or, when output is not a terminal,
 * writes nothing; plain writes always go through.
 *
 * Standard output is the `output` field: the list of strings written to it,
 * in order. The animation engine's behaviour is a trace of renderer calls
 * and timer waits (`Event`); `Emitted` says what one call writes, and
 * `Renderer.Play` performs a whole trace.
 */
module Render {
  import opened Wrappers
  import opened Text

  /** One renderer call (or, for Wait, one timer wait) issued by an animation. */
  datatype Event =
    | Hide
    | Show
    | ClearLine
    | ClearScreen
    | MoveTo(x: int, y: int)
    | MoveUp(n: int)
    | MoveDown(n: int)
    | Save
    | Restore
    | Write(text: string)
    | WriteLine(text: string)
    | Wait(ms: real)

  /** Control sequence introducer: ESC [ */
  const Csi: string := [Esc, '[']

  /** What one call writes to standard output. */
  function Emitted(interactive: bool, e: Event): seq<string> {
    match e
    case Write(s) => [s]
    case WriteLine(s) => [s + "\n"]
    case Wait(_) => []
    case _ =>
      if !interactive then []
      else match e
        case Hide => [Csi + "?25l"]
        case Show => [Csi + "?25h"]
        case ClearLine => [Csi + "2K\r"]
        case ClearScreen => [Csi + "0J"]
        case MoveTo(x, y) => [Csi + IntToString(y) + ";" + IntToString(x) + "H"]
        case MoveUp(n) => if n > 0 then [Csi + IntToString(n) + "A"] else []
        case MoveDown(n) => if n > 0 then [Csi + IntToString(n) + "B"] else []
        case Save => [[Esc, '7']]
        case Restore => [[Esc, '8']]
  }

  /** What a whole trace writes. */
  function Played(interactive: bool, trace: seq<Event>): seq<string> {
    if |trace| == 0 then [] else Emitted(interactive, trace[0]) + Played(interactive, trace[1..])
  }

  lemma {:induction false} PlayedAppend(interactive: bool, a: seq<Event>, b: seq<Event>)
    ensures Played(interactive, a + b) == Played(interactive, a) + Played(interactive, b)
    decreases |a|
  {
    if |a| == 0 {
      assert a + b == b;
    } else {
      assert (a + b)[1..] == a[1..] + b;
      PlayedAppend(interactive, a[1..], b);
    }
  }

  lemma PlayedOne(interactive: bool, e: Event)
    ensures Played(interactive, [e]) == Emitted(interactive, e)
  {
    assert [e][1..] == [];
    assert Emitted(interactive, e) + [] == Emitted(interactive, e);
  }

  /** The text one call puts on the screen: its write, or its line and a newline. */
  function Said(e: Event): string {
    match e
    case Write(s) => s
    case WriteLine(s) => s + "\n"
    case _ => ""
  }

  /** The text content of a trace: what its writes and written lines say. */
  function Written(trace: seq<Event>): string {
    if |trace| == 0 then "" else Said(trace[0]) + Written(trace[1..])
  }

  lemma WrittenOne(e: Event)
    ensures Written([e]) == Said(e)
  {
    assert [e][1..] == [];
  }

  lemma {:induction false} WrittenAppend(a: seq<Event>, b: seq<Event>)
    ensures Written(a + b) == Written(a) + Written(b)
    decreases |a|
  {
    if |a| == 0 {
      assert a + b == b;
    } else {
      assert (a + b)[1..] == a[1..] + b;
      WrittenAppend(a[1..], b);
    }
  }

  /**
   * Off a terminal only the content comes through: a trace played without a
   * terminal writes exactly its text content, and no escape sequence.
   */
  lemma {:induction false} PlayedNonInteractive(trace: seq<Event>)
    ensures Concat(Played(false, trace)) == Written(trace)
    decreases |trace|
  {
    if |trace| > 0 {
      PlayedNonInteractive(trace[1..]);
      ConcatAppendFront(Emitted(false, trace[0]), Played(false, trace[1..]));
      match trace[0]
      case Write(s) => assert Concat([s]) == s + "";
      case WriteLine(s) => assert Concat([s + "\n"]) == s + "\n" + "";
      case _ =>
    }
  }

  lemma {:induction false} ConcatAppendFront(a: seq<string>, b: seq<string>)
    ensures Concat(a + b) == Concat(a) + Concat(b)
    decreases |a|
  {
    if |a| == 0 {
      assert a + b == b;
    } else {
      assert (a + b)[1..] == a[1..] + b;
      ConcatAppendFront(a[1..], b);
    }
  }

  /** Cursor movement writes its count in decimal; a count that is not positive writes nothing. */
  lemma MoveFormats(n: int)
    ensures n > 0 ==> Emitted(true, MoveUp(n)) == [Csi + NatToString(n) + "A"]
    ensures n > 0 ==> Emitted(true, MoveDown(n)) == [Csi + NatToString(n) + "B"]
    ensures n <= 0 ==> Emitted(true, MoveUp(n)) == [] && Emitted(true, MoveDown(n)) == []
  {
  }

  class Renderer {
    const isInteractive: bool
    /** The terminal's width and height as the stream reports them. */
    const columns: Option<int>
    const rows: Option<int>
    var output: seq<string>

    /** isInteractive is stdout.isTTY, false when absent. */
    constructor(isTTY: Option<bool>, columns: Option<int>, rows: Option<int>)
      ensures isInteractive == (isTTY == Some(true))
      ensures this.columns == columns && this.rows == rows
      ensures output == []
    {
      isInteractive := isTTY == Some(true);
      this.columns := columns;
      this.rows := rows;
      output := [];
    }

    method HideCursor()
      modifies this
      ensures output == old(output) + Emitted(isInteractive, Hide)
    {
      if isInteractive {
        output := output + [Csi + "?25l"];
      }
    }

    method ShowCursor()
      modifies this
      ensures output == old(output) + Emitted(isInteractive, Show)
    {
      if isInteractive {
        output := output + [Csi + "?25h"];
      }
    }

    method ClearLine()
      modifies this
      ensures output == old(output) + Emitted(isInteractive, Event.ClearLine)
    {
      if isInteractive {
        output := output + [Csi + "2K\r"];
      }
    }

    method ClearScreen()
      modifies this
      ensures output == old(output) + Emitted(isInteractive, Event.ClearScreen)
    {
      if isInteractive {
        output := output + [Csi + "0J"];
      }
    }

    /** Row first, then column. */
    method MoveCursor(x: int, y: int)
      modifies this
      ensures output == old(output) + Emitted(isInteractive, MoveTo(x, y))
    {
      if isInteractive {
        output := output + [Csi + IntToString(y) + ";" + IntToString(x) + "H"];
      }
    }

    method MoveCursorUp(lines: int)
      modifies this
      ensures output == old(output) + Emitted(isInteractive, MoveUp(lines))
    {
      if isInteractive && lines > 0 {
        output := output + [Csi + IntToString(lines) + "A"];
      }
    }

    method MoveCursorDown(lines: int)
      modifies this
      ensures output == old(output) + Emitted(isInteractive, MoveDown(lines))
    {
      if isInteractive && lines > 0 {
        output := output + [Csi + IntToString(lines) + "B"];
      }
    }

    method SavePosition()
      modifies this
      ensures output == old(output) + Emitted(isInteractive, Save)
    {
      if isInteractive {
        output := output + [[Esc, '7']];
      }
    }

    method RestorePosition()
      modifies this
      ensures output == old(output) + Emitted(isInteractive, Restore)
    {
      if isInteractive {
        output := output + [[Esc, '8']];
      }
    }

    method Write(content: string)
      modifies this
      ensures output == old(output) + [content]
    {
      output := output + [content];
    }

    method WriteLine(content: string)
      modifies this
      ensures output == old(output) + [content + "\n"]
    {
      output := output + [content + "\n"];
    }

    /** cleanup is showCursor. */
    method Cleanup()
      modifies this
      ensures output == old(output) + Emitted(isInteractive, Show)
    {
      ShowCursor();
    }

    /** Animations need a terminal, no CI variable set (non-empty), and a TERM other than dumb. */
    predicate SupportsAnimation(ci: Option<string>, term: Option<string>) {
      isInteractive && !(ci.Some? && ci.value != "") && term != Some("dumb")
    }

    /** 80 by 24 off a terminal; on one, the reported size with 80 and 24 for a missing or zero value. */
    function TerminalSize(): (size: (int, int))
      ensures !isInteractive ==> size == (80, 24)
      ensures isInteractive ==> size.0 == (if columns.Some? && columns.value != 0 then columns.value else 80)
      ensures isInteractive ==> size.1 == (if rows.Some? && rows.value != 0 then rows.value else 24)
    {
      if isInteractive then
        (if columns.Some? && columns.value != 0 then columns.value else 80,
         if rows.Some? && rows.value != 0 then rows.value else 24)
      else (80, 24)
    }

    /** One call of the trace. */
    method Perform(e: Event)
      modifies this
      ensures output == old(output) + Emitted(isInteractive, e)
    {
      match e
      case Hide => HideCursor();
      case Show => ShowCursor();
      case ClearLine => ClearLine();
      case ClearScreen => ClearScreen();
      case MoveTo(x, y) => MoveCursor(x, y);
      case MoveUp(n) => MoveCursorUp(n);
      case MoveDown(n) => MoveCursorDown(n);
      case Save => SavePosition();
      case Restore => RestorePosition();
      case Write(s) => Write(s);
      case WriteLine(s) => WriteLine(s);
      case Wait(_) =>
    }

    /** Perform a trace call by call. */
    method Play(trace: seq<Event>)
      modifies this
      ensures output == old(output) + Played(isInteractive, trace)
    {
      for i := 0 to |trace|
        invariant output == old(output) + Played(isInteractive, trace[..i])
      {
        Perform(trace[i]);
        assert trace[..i + 1] == trace[..i] + [trace[i]];
        PlayedAppend(isInteractive, trace[..i], [trace[i]]);
        PlayedOne(isInteractive, trace[i]);
      }
      assert trace[..|trace|] == trace;
    }
  }
}
