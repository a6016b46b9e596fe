/**
 * The `aahook list` table: one row per configured hook, in the order
 * Object.entries lists them, under a header and a dashed separator. Each
 * column is as wide as its widest cell plus two spaces.
 */
module HookList {
  import opened Wrappers
  import opened Text
  import opened Config

  /** A configured hook: its command line and its arts, in entry order. */
  type Entry = (string, HookConfig)

  /** What a column shows for an art: the name, or `(default)` when it is missing or empty. */
  function Cell(art: Option<string>): (c: string)
    ensures |c| > 0
  {
    if art.Some? && art.value != "" then art.value else "(default)"
  }

  function Max(a: nat, b: nat): (m: nat)
    ensures m >= a && m >= b && (m == a || m == b)
  {
    if a >= b then a else b
  }

  /** The largest of the title's length and the cells' lengths. */
  function Widest(title: string, cells: seq<string>): nat
  {
    if |cells| == 0 then |title|
    else Max(Widest(title, cells[..|cells| - 1]), |cells[|cells| - 1]|)
  }

  /** The title is never wider than the widest length. */
  lemma {:induction false} WidestTitle(title: string, cells: seq<string>)
    ensures |title| <= Widest(title, cells)
    decreases |cells|
  {
    if |cells| > 0 {
      WidestTitle(title, cells[..|cells| - 1]);
    }
  }

  /** No cell is wider than the widest length. */
  lemma {:induction false} WidestBounds(title: string, cells: seq<string>, i: nat)
    requires i < |cells|
    ensures |cells[i]| <= Widest(title, cells)
    decreases |cells|
  {
    var init := cells[..|cells| - 1];
    if i < |cells| - 1 {
      WidestBounds(title, init, i);
      assert init[i] == cells[i];
    }
  }

  /** The widest length is the title's or some cell's: no column is wider than it must be. */
  lemma {:induction false} WidestAttained(title: string, cells: seq<string>)
    ensures Widest(title, cells) == |title| || exists i :: 0 <= i < |cells| && Widest(title, cells) == |cells[i]|
    decreases |cells|
  {
    if |cells| > 0 {
      var init := cells[..|cells| - 1];
      WidestAttained(title, init);
      if Widest(title, cells) != |cells[|cells| - 1]| && Widest(title, cells) != |title| {
        var i :| 0 <= i < |init| && Widest(title, init) == |init[i]|;
        assert cells[i] == init[i];
      }
    }
  }

  function Commands(hooks: seq<Entry>): (cs: seq<string>)
    ensures |cs| == |hooks| && forall i :: 0 <= i < |hooks| ==> cs[i] == hooks[i].0
  {
    seq(|hooks|, i requires 0 <= i < |hooks| => hooks[i].0)
  }

  function SuccessCells(hooks: seq<Entry>): (cs: seq<string>)
    ensures |cs| == |hooks| && forall i :: 0 <= i < |hooks| ==> cs[i] == Cell(hooks[i].1.success)
  {
    seq(|hooks|, i requires 0 <= i < |hooks| => Cell(hooks[i].1.success))
  }

  function ErrorCells(hooks: seq<Entry>): (cs: seq<string>)
    ensures |cs| == |hooks| && forall i :: 0 <= i < |hooks| ==> cs[i] == Cell(hooks[i].1.error)
  {
    seq(|hooks|, i requires 0 <= i < |hooks| => Cell(hooks[i].1.error))
  }

  datatype Widths = Widths(command: nat, success: nat, error: nat)

  /** The three column widths: the widest cell or title of each column, plus 2. */
  function ColumnWidths(hooks: seq<Entry>): Widths {
    Widths(
      Widest("Command", Commands(hooks)) + 2,
      Widest("Success Art", SuccessCells(hooks)) + 2,
      Widest("Error Art", ErrorCells(hooks)) + 2)
  }

  function Row(command: string, success: string, error: string, w: Widths): string {
    PadEnd(command, w.command) + PadEnd(success, w.success) + PadEnd(error, w.error)
  }

  function Separator(w: Widths): string {
    Repeat('-', w.command - 1) + " " + Repeat('-', w.success - 1) + " " + Repeat('-', w.error - 1)
  }

  function EntryRow(e: Entry, w: Widths): string {
    Row(e.0, Cell(e.1.success), Cell(e.1.error), w)
  }

  function Header(w: Widths): string {
    Row("Command", "Success Art", "Error Art", w)
  }

  /** One row per hook, in entry order. */
  function Rows(hooks: seq<Entry>, w: Widths): (rows: seq<string>)
    ensures |rows| == |hooks|
  {
    if |hooks| == 0 then [] else Rows(hooks[..|hooks| - 1], w) + [EntryRow(hooks[|hooks| - 1], w)]
  }

  lemma {:induction false} RowsAt(hooks: seq<Entry>, w: Widths, i: nat)
    requires i < |hooks|
    ensures Rows(hooks, w)[i] == EntryRow(hooks[i], w)
    decreases |hooks|
  {
    if i < |hooks| - 1 {
      var init := hooks[..|hooks| - 1];
      RowsAt(init, w, i);
      assert init[i] == hooks[i];
    }
  }

  /** Header, separator, then one row per hook, at widths w. */
  function Lines(hooks: seq<Entry>, w: Widths): seq<string> {
    [Header(w), Separator(w)] + Rows(hooks, w)
  }

  /** The lines of the table, at the widths the hooks call for. */
  function TableLines(hooks: seq<Entry>): seq<string> {
    Lines(hooks, ColumnWidths(hooks))
  }

  /** The first pass of formatTable: each column's widest cell or title, plus 2. */
  method MeasureColumns(hooks: seq<Entry>) returns (w: Widths)
    ensures w == ColumnWidths(hooks)
  {
    var maxCommandWidth := |"Command"|;
    var maxSuccessWidth := |"Success Art"|;
    var maxErrorWidth := |"Error Art"|;
    for i := 0 to |hooks|
      invariant maxCommandWidth == Widest("Command", Commands(hooks)[..i])
      invariant maxSuccessWidth == Widest("Success Art", SuccessCells(hooks)[..i])
      invariant maxErrorWidth == Widest("Error Art", ErrorCells(hooks)[..i])
    {
      var command := hooks[i].0;
      var hook := hooks[i].1;
      WidestStep("Command", Commands(hooks), i);
      WidestStep("Success Art", SuccessCells(hooks), i);
      WidestStep("Error Art", ErrorCells(hooks), i);
      maxCommandWidth := Max(maxCommandWidth, |command|);
      maxSuccessWidth := Max(maxSuccessWidth, |Cell(hook.success)|);
      maxErrorWidth := Max(maxErrorWidth, |Cell(hook.error)|);
    }
    assert Commands(hooks)[..|hooks|] == Commands(hooks);
    assert SuccessCells(hooks)[..|hooks|] == SuccessCells(hooks);
    assert ErrorCells(hooks)[..|hooks|] == ErrorCells(hooks);
    maxCommandWidth := maxCommandWidth + 2;
    maxSuccessWidth := maxSuccessWidth + 2;
    maxErrorWidth := maxErrorWidth + 2;
    w := Widths(maxCommandWidth, maxSuccessWidth, maxErrorWidth);
  }

  /** The second pass of formatTable: header, separator and one row per hook, pushed in order. */
  method EmitLines(hooks: seq<Entry>, w: Widths) returns (lines: seq<string>)
    ensures lines == Lines(hooks, w)
  {
    lines := [];
    lines := lines + [Header(w)];
    lines := lines + [Separator(w)];
    assert hooks[..0] == [];
    for i := 0 to |hooks|
      invariant lines == [Header(w), Separator(w)] + Rows(hooks[..i], w)
    {
      var successArt := Cell(hooks[i].1.success);
      var errorArt := Cell(hooks[i].1.error);
      RowsStep(hooks, w, i);
      lines := lines + [Row(hooks[i].0, successArt, errorArt, w)];
    }
    assert hooks[..|hooks|] == hooks;
  }

  /** formatTable: the widths in one pass, the lines in a second, joined by newlines. */
  method FormatTable(hooks: seq<Entry>) returns (table: string)
    ensures table == Join(TableLines(hooks), "\n")
  {
    var w := MeasureColumns(hooks);
    var lines := EmitLines(hooks, w);
    table := Join(lines, "\n");
  }

  lemma RowsStep(hooks: seq<Entry>, w: Widths, i: nat)
    requires i < |hooks|
    ensures Rows(hooks[..i + 1], w) == Rows(hooks[..i], w) + [EntryRow(hooks[i], w)]
  {
    assert hooks[..i + 1][..i] == hooks[..i];
  }

  lemma WidestStep(title: string, cells: seq<string>, i: nat)
    requires i < |cells|
    ensures Widest(title, cells[..i + 1]) == Max(Widest(title, cells[..i]), |cells[i]|)
  {
    assert cells[..i + 1][..i] == cells[..i];
  }

  /**
   * displayHooks: missing or empty hooks print the two-line notice; otherwise
   * the table is printed. The result is what console.log receives, in order.
   */
  method DisplayHooks(hooks: Option<seq<Entry>>) returns (logged: seq<string>)
    ensures hooks.None? || |hooks.value| == 0 ==>
      logged == ["No hooks configured.", "Edit ~/.aahook/config.json to add hooks."]
    ensures hooks.Some? && |hooks.value| > 0 ==> logged == [Join(TableLines(hooks.value), "\n")]
  {
    if hooks.None? || |hooks.value| == 0 {
      logged := ["No hooks configured.", "Edit ~/.aahook/config.json to add hooks."];
      return;
    }
    var table := FormatTable(hooks.value);
    logged := [table];
  }

  /** A cell no wider than its column minus two is padded to exactly the column width. */
  lemma PaddedCell(cell: string, width: nat)
    requires |cell| + 2 <= width
    ensures |PadEnd(cell, width)| == width
    ensures PadEnd(cell, width)[..|cell|] == cell
    ensures PadEnd(cell, width)[width - 2..] == "  "
  {
    var pad := Repeat(' ', width - |cell|);
    var r := cell + pad;
    assert PadEnd(cell, width) == r;
    assert r[width - 2..] == pad[|pad| - 2..];
    assert pad[|pad| - 2..] == "  " by {
      assert pad[|pad| - 2] == ' ' && pad[|pad| - 1] == ' ';
    }
  }

  /** Every title and every cell is at least two characters narrower than its column. */
  predicate Fits(hooks: seq<Entry>, w: Widths) {
    |"Command"| + 2 <= w.command && |"Success Art"| + 2 <= w.success && |"Error Art"| + 2 <= w.error &&
    forall i :: 0 <= i < |hooks| ==>
      |hooks[i].0| + 2 <= w.command && |Cell(hooks[i].1.success)| + 2 <= w.success &&
      |Cell(hooks[i].1.error)| + 2 <= w.error
  }

  /** The measured widths leave room for every title and cell, plus the two-space gap. */
  lemma ColumnsFit(hooks: seq<Entry>)
    ensures Fits(hooks, ColumnWidths(hooks))
  {
    WidestTitle("Command", Commands(hooks));
    WidestTitle("Success Art", SuccessCells(hooks));
    WidestTitle("Error Art", ErrorCells(hooks));
    forall i | 0 <= i < |hooks|
      ensures |hooks[i].0| + 2 <= ColumnWidths(hooks).command
      ensures |Cell(hooks[i].1.success)| + 2 <= ColumnWidths(hooks).success
      ensures |Cell(hooks[i].1.error)| + 2 <= ColumnWidths(hooks).error
    {
      WidestBounds("Command", Commands(hooks), i);
      WidestBounds("Success Art", SuccessCells(hooks), i);
      WidestBounds("Error Art", ErrorCells(hooks), i);
    }
  }

  /** Line i + 2 holds hook i's row. */
  lemma LineAt(hooks: seq<Entry>, w: Widths, i: nat)
    requires i < |hooks|
    ensures |Lines(hooks, w)| == |hooks| + 2
    ensures Lines(hooks, w)[i + 2] == Row(hooks[i].0, Cell(hooks[i].1.success), Cell(hooks[i].1.error), w)
  {
    RowsAt(hooks, w, i);
  }

  /**
   * At widths that fit, the header and every row are exactly as wide as the
   * three columns together, and the separator one less.
   */
  lemma LinesShape(hooks: seq<Entry>, w: Widths)
    requires Fits(hooks, w)
    ensures var lines := Lines(hooks, w);
      |lines| == |hooks| + 2 &&
      |lines[1]| == w.command + w.success + w.error - 1 &&
      (forall k :: 0 <= k < |lines| && k != 1 ==> |lines[k]| == w.command + w.success + w.error)
  {
    var lines := Lines(hooks, w);
    RowCells("Command", "Success Art", "Error Art", w);
    forall k | 2 <= k < |lines|
      ensures |lines[k]| == w.command + w.success + w.error
    {
      var e := hooks[k - 2];
      LineAt(hooks, w, k - 2);
      RowCells(e.0, Cell(e.1.success), Cell(e.1.error), w);
    }
  }

  /**
   * The table's shape: two lines more than hooks; the header and every row are
   * exactly as wide as the three columns together, the separator one less.
   */
  lemma TableShape(hooks: seq<Entry>)
    ensures var lines := TableLines(hooks); var w := ColumnWidths(hooks);
      |lines| == |hooks| + 2 &&
      |lines[1]| == w.command + w.success + w.error - 1 &&
      (forall k :: 0 <= k < |lines| && k != 1 ==> |lines[k]| == w.command + w.success + w.error)
  {
    ColumnsFit(hooks);
    LinesShape(hooks, ColumnWidths(hooks));
  }

  /**
   * Row i of the table lays out hook i's command, success cell and error cell
   * at the column offsets, each followed by at least two spaces.
   */
  lemma RowLayout(hooks: seq<Entry>, i: nat)
    requires i < |hooks|
    ensures var w := ColumnWidths(hooks); var row := TableLines(hooks)[i + 2];
      var c := hooks[i].0; var s := Cell(hooks[i].1.success); var e := Cell(hooks[i].1.error);
      |c| + 2 <= w.command && |s| + 2 <= w.success && |e| + 2 <= w.error &&
      |row| == w.command + w.success + w.error &&
      row[..|c|] == c && row[w.command - 2..w.command] == "  " &&
      row[w.command..w.command + |s|] == s && row[w.command + w.success - 2..w.command + w.success] == "  " &&
      row[w.command + w.success..w.command + w.success + |e|] == e && row[|row| - 2..] == "  "
  {
    var w := ColumnWidths(hooks);
    ColumnsFit(hooks);
    LineAt(hooks, w, i);
    RowCells(hooks[i].0, Cell(hooks[i].1.success), Cell(hooks[i].1.error), w);
  }

  /** Cells that fit their columns sit at the column offsets, each followed by at least two spaces. */
  lemma RowCells(c: string, s: string, e: string, w: Widths)
    requires |c| + 2 <= w.command && |s| + 2 <= w.success && |e| + 2 <= w.error
    ensures var row := Row(c, s, e, w);
      |row| == w.command + w.success + w.error &&
      row[..|c|] == c && row[w.command - 2..w.command] == "  " &&
      row[w.command..w.command + |s|] == s && row[w.command + w.success - 2..w.command + w.success] == "  " &&
      row[w.command + w.success..w.command + w.success + |e|] == e && row[|row| - 2..] == "  "
  {
    PaddedCell(c, w.command);
    PaddedCell(s, w.success);
    PaddedCell(e, w.error);
    var a := PadEnd(c, w.command);
    var b := PadEnd(s, w.success);
    var d := PadEnd(e, w.error);
    ThreeCells(a, b, d);
  }

  lemma ThreeCells(a: string, b: string, d: string)
    ensures var r := a + b + d;
      r[..|a|] == a && r[|a|..|a| + |b|] == b && r[|a| + |b|..] == d
  {
  }
}
