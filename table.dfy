/**
 * `gen_table`: lays out columns of values as a reStructuredText grid table
 * (the "Grid Tables" construct of the reStructuredText Markup
 * Specification). Cells are formatted with a per-column format spec,
 * columns are padded to a common height, each column is as wide as its
 * widest cell (and heading), and every record of the table has the same
 * length.
 *
 * Python's `str.format` and `str` are not modelled; they are the parameters
 * `apply` and `show`.
 */
module Table {
  import opened Wrappers

  /** A value placed in a table cell. */
  datatype Cell = Null | Text(text: string) | Number(value: real) | Tuple(parts: seq<Cell>)

  /**
   * What `spec.format(*args)` does: produce a string, raise ValueError or
   * TypeError (which `format` catches), or raise anything else (which
   * escapes `gen_table`).
   */
  datatype Outcome = Formatted(text: string) | Rejected | Raised

  /** The `specs` argument: None, a single string, or a list with None entries allowed. */
  datatype Specs = Default | Uniform(spec: string) | PerColumn(specs: seq<Option<string>>)

  /** Why `gen_table` raises. */
  datatype TableError =
    | NoColumns      // ValueError: `max` of an empty `cols`
    | NoRows         // ValueError: `max` of a column with no cells
    | FormatFailed   // an exception other than ValueError/TypeError from `str.format`

  const DefaultSpec: string := "{}"

  // ---------------------------------------------------------------------
  // String helpers: Python's `str.join`, `c * n` and left justification

  /** `sep.join(items)`. */
  function Join(items: seq<string>, sep: string): string
  {
    if |items| == 0 then ""
    else if |items| == 1 then items[0]
    else items[0] + sep + Join(items[1..], sep)
  }

  /** `c * n`. */
  function Repeat(c: char, n: nat): (r: string)
    ensures |r| == n && forall i :: 0 <= i < n ==> r[i] == c
  {
    seq(n, _ => c)
  }

  /** `'{:<{}}'.format(s, w)`: s followed by spaces up to width w. */
  function LeftJustify(s: string, w: nat): (r: string)
    ensures |r| == if |s| < w then w else |s|
    ensures r[..|s|] == s
    ensures forall i :: |s| <= i < |r| ==> r[i] == ' '
  {
    if |s| < w then s + Repeat(' ', w - |s|) else s
  }

  // ---------------------------------------------------------------------
  // The nested helpers of gen_table

  /** `tr(items, sep, fill)`: one record, items separated by `fill sep fill`, framed by `sep fill` and `fill sep`, ending in a newline. */
  function Tr(items: seq<string>, sep: char, fill: char): (r: string)
    ensures |r| >= 5 && r[0] == sep && r[1] == fill
    ensures r[|r| - 3] == fill && r[|r| - 2] == sep && r[|r| - 1] == '\n'
    ensures r[2..|r| - 3] == Join(items, [fill, sep, fill])
  {
    [sep, fill] + Join(items, [fill, sep, fill]) + [fill, sep, '\n']
  }

  /** `filler(fill)`: a separator record, each column drawn as `fill * width`. */
  function Filler(widths: seq<nat>, fill: char): (r: string)
    ensures |r| >= 5 && r[0] == '+' && r[|r| - 2] == '+' && r[|r| - 1] == '\n'
  {
    Tr(seq(|widths|, i requires 0 <= i < |widths| => Repeat(fill, widths[i])), '+', fill)
  }

  /** `pad(row)`: each cell left-justified to its column's width; `zip` stops at the shorter. */
  function Pad(row: seq<string>, widths: seq<nat>): (r: seq<string>)
    ensures |r| == if |row| < |widths| then |row| else |widths|
    ensures forall i :: 0 <= i < |r| ==> r[i] == LeftJustify(row[i], widths[i])
  {
    var n := if |row| < |widths| then |row| else |widths|;
    seq(n, i requires 0 <= i < n => LeftJustify(row[i], widths[i]))
  }

  /**
   * `format(item, spec)`: None and '' give ''; a tuple is spread into the
   * spec's arguments; a ValueError or TypeError falls back to `str(item)`.
   * None here means the exception escapes.
   */
  function Format(item: Cell, spec: string, apply: (string, seq<Cell>) -> Outcome, show: Cell -> string): (r: Option<string>)
    ensures item == Null || item == Text("") ==> r == Some("")
    ensures r.None? <==> item != Null && item != Text("") && apply(spec, Arguments(item)).Raised?
    ensures item != Null && item != Text("") && apply(spec, Arguments(item)).Rejected? ==> r == Some(show(item))
    ensures item != Null && item != Text("") && apply(spec, Arguments(item)).Formatted? ==>
      r == Some(apply(spec, Arguments(item)).text)
  {
    if item == Null || item == Text("") then Some("")
    else match apply(spec, Arguments(item))
      case Formatted(s) => Some(s)
      case Rejected => Some(show(item))
      case Raised => None
  }

  /** The arguments `spec.format` receives: a tuple's parts, or the item itself. */
  function Arguments(item: Cell): seq<Cell>
  {
    if item.Tuple? then item.parts else [item]
  }

  // ---------------------------------------------------------------------
  // gen_table

  /**
   * The spec of each column, before `zip` with the columns: `'{}'` for every
   * column, one string for every column, or the list with None read as `'{}'`.
   */
  function ColumnSpecs(specs: Specs, ncols: nat): (r: seq<string>)
    ensures specs.Default? ==> |r| == ncols && forall i :: 0 <= i < ncols ==> r[i] == DefaultSpec
    ensures specs.Uniform? ==> |r| == ncols && forall i :: 0 <= i < ncols ==> r[i] == specs.spec
    ensures specs.PerColumn? ==> |r| == |specs.specs| && forall i :: 0 <= i < |r| ==>
      r[i] == if specs.specs[i].None? then DefaultSpec else specs.specs[i].value
  {
    match specs
    case Default => seq(ncols, _ => DefaultSpec)
    case Uniform(s) => seq(ncols, _ => s)
    case PerColumn(ss) =>
      seq(|ss|, i requires 0 <= i < |ss| => if ss[i].None? then DefaultSpec else ss[i].value)
  }

  /** The length of the longest column: `len(max(cols, key=len))`. */
  function Height(cols: seq<seq<Cell>>): (h: nat)
    requires |cols| > 0
    ensures forall j :: 0 <= j < |cols| ==> |cols[j]| <= h
    ensures exists j :: 0 <= j < |cols| && |cols[j]| == h
  {
    if |cols| == 1 then |cols[0]|
    else
      var h := Height(cols[1..]);
      assert forall j :: 1 <= j < |cols| ==> cols[j] == cols[1..][j - 1];
      if |cols[0]| >= h then |cols[0]| else h
  }

  /** A column extended with '' cells up to `height`. */
  function PadColumn(col: seq<Cell>, height: nat): (r: seq<Cell>)
    requires |col| <= height
    ensures |r| == height && r[..|col|] == col
    ensures forall i :: |col| <= i < height ==> r[i] == Text("")
  {
    col + seq(height - |col|, _ => Text(""))
  }

  /** Formats every cell of a column, or None when a format escapes. */
  function FormatColumn(col: seq<Cell>, spec: string, apply: (string, seq<Cell>) -> Outcome, show: Cell -> string): (r: Option<seq<string>>)
    ensures r.Some? ==> |r.value| == |col| && forall i :: 0 <= i < |col| ==> Some(r.value[i]) == Format(col[i], spec, apply, show)
    ensures r.None? <==> exists i :: 0 <= i < |col| && Format(col[i], spec, apply, show).None?
  {
    if |col| == 0 then Some([])
    else
      match Format(col[0], spec, apply, show)
      case None => None
      case Some(s) =>
        match FormatColumn(col[1..], spec, apply, show)
        case None =>
          var i :| 0 <= i < |col[1..]| && Format(col[1..][i], spec, apply, show).None?;
          assert col[1..][i] == col[i + 1];
          None
        case Some(rest) =>
          assert forall i :: 1 <= i < |col| ==> col[i] == col[1..][i - 1];
          Some([s] + rest)
  }

  /**
   * `content`: one formatted column per (column, spec) pair of the `zip`,
   * each padded to `height` first.
   */
  function Content(cols: seq<seq<Cell>>, specs: seq<string>, height: nat, apply: (string, seq<Cell>) -> Outcome, show: Cell -> string): (r: Option<seq<seq<string>>>)
    requires forall j :: 0 <= j < |cols| ==> |cols[j]| <= height
    ensures r.Some? ==> |r.value| == (if |cols| < |specs| then |cols| else |specs|)
    ensures r.Some? ==> forall j :: 0 <= j < |r.value| ==>
      Some(r.value[j]) == FormatColumn(PadColumn(cols[j], height), specs[j], apply, show)
    ensures r.None? <==> exists j :: 0 <= j < |cols| && j < |specs| && FormatColumn(PadColumn(cols[j], height), specs[j], apply, show).None?
    decreases |cols|
  {
    if |cols| == 0 || |specs| == 0 then Some([])
    else
      match FormatColumn(PadColumn(cols[0], height), specs[0], apply, show)
      case None => None
      case Some(c) =>
        assert forall j :: 1 <= j < |cols| ==> cols[j] == cols[1..][j - 1];
        match Content(cols[1..], specs[1..], height, apply, show)
        case None =>
          var j :| 0 <= j < |cols[1..]| && j < |specs[1..]| && FormatColumn(PadColumn(cols[1..][j], height), specs[1..][j], apply, show).None?;
          assert cols[1..][j] == cols[j + 1] && specs[1..][j] == specs[j + 1];
          None
        case Some(rest) => Some([c] + rest)
  }

  /** `max(map(len, col))`: the length of the longest string of a non-empty column. */
  function MaxLen(col: seq<string>): (m: nat)
    requires |col| > 0
    ensures forall i :: 0 <= i < |col| ==> |col[i]| <= m
    ensures exists i :: 0 <= i < |col| && |col[i]| == m
  {
    if |col| == 1 then |col[0]|
    else
      var m := MaxLen(col[1..]);
      assert forall i :: 1 <= i < |col| ==> col[i] == col[1..][i - 1];
      if |col[0]| >= m then |col[0]| else m
  }

  /**
   * `widths`: for each column, the longest formatted cell, and no less than
   * its heading when there is one; only `zip(heading, content)` columns get
   * a width. None when a column with no cells has to be measured.
   */
  function Widths(content: seq<seq<string>>, heading: Option<seq<string>>): (r: Option<seq<nat>>)
    ensures r.Some? ==> |r.value| == NumWidths(|content|, heading)
    ensures r.None? <==> exists j :: 0 <= j < NumWidths(|content|, heading) && |content[j]| == 0
    ensures r.Some? ==> forall j, i :: 0 <= j < |r.value| && 0 <= i < |content[j]| ==> |content[j][i]| <= r.value[j]
    ensures r.Some? && heading.Some? ==> forall j :: 0 <= j < |r.value| ==> |heading.value[j]| <= r.value[j]
    ensures r.Some? ==> forall j :: 0 <= j < |r.value| ==> Attained(content[j], HeadingAt(heading, j), r.value[j])
  {
    var n := NumWidths(|content|, heading);
    if exists j :: 0 <= j < n && |content[j]| == 0 then None
    else
      var w := seq(n, j requires 0 <= j < n => ColumnWidth(content[j], HeadingAt(heading, j)));
      assert forall j :: 0 <= j < n ==> w[j] == ColumnWidth(content[j], HeadingAt(heading, j));
      Some(w)
  }

  /** The heading over column j, if there is a heading. */
  function HeadingAt(heading: Option<seq<string>>, j: nat): (h: Option<string>)
    requires heading.Some? ==> j < |heading.value|
    ensures h.Some? <==> heading.Some?
    ensures h.Some? ==> h.value == heading.value[j]
  {
    if heading.Some? then Some(heading.value[j]) else None
  }

  /** Some cell of the column, or its heading, is exactly w long. */
  predicate Attained(col: seq<string>, h: Option<string>, w: nat)
  {
    (h.Some? && w == |h.value|) || exists i :: 0 <= i < |col| && |col[i]| == w
  }

  /** `max(len(h), max(map(len, col)))`, or the inner `max` alone without a heading. */
  function ColumnWidth(col: seq<string>, h: Option<string>): (w: nat)
    requires |col| > 0
    ensures forall i :: 0 <= i < |col| ==> |col[i]| <= w
    ensures h.Some? ==> |h.value| <= w
    ensures Attained(col, h, w)
  {
    var m := MaxLen(col);
    if h.Some? && |h.value| > m then |h.value| else m
  }

  /** How many columns get a width: all of them, or as many as the heading has. */
  function NumWidths(ncols: nat, heading: Option<seq<string>>): (n: nat)
    ensures n <= ncols && (heading.Some? ==> n <= |heading.value|)
  {
    if heading.Some? && |heading.value| < ncols then |heading.value| else ncols
  }

  /** `zip(*content)`: the rows of a table given by equally long columns. */
  function Rows(content: seq<seq<string>>, height: nat): (rows: seq<seq<string>>)
    requires forall j :: 0 <= j < |content| ==> |content[j]| == height
    ensures |rows| == if |content| == 0 then 0 else height
    ensures forall r :: 0 <= r < |rows| ==> |rows[r]| == |content| && forall j :: 0 <= j < |content| ==> rows[r][j] == content[j][r]
  {
    if |content| == 0 then []
    else seq(height, r requires 0 <= r < height => seq(|content|, j requires 0 <= j < |content| => content[j][r]))
  }

  /**
   * What `gen_table` settles before it writes anything: the column widths,
   * the heading cells (when there is a heading) and the rows of formatted
   * cells.
   */
  datatype Layout = Layout(widths: seq<nat>, heading: Option<seq<string>>, rows: seq<seq<string>>)

  /**
   * The cells of a layout fit: every row and the heading have a cell for
   * each width, and no cell is longer than its column's width.
   */
  predicate Fits(l: Layout)
  {
    && (forall r :: 0 <= r < |l.rows| ==> CellsFit(l.rows[r], l.widths))
    && (l.heading.Some? ==> CellsFit(l.heading.value, l.widths))
  }

  predicate CellsFit(cells: seq<string>, widths: seq<nat>)
  {
    |cells| >= |widths| && forall i :: 0 <= i < |widths| ==> |cells[i]| <= widths[i]
  }

  /**
   * The widths are no larger than they need be: each is the length of the
   * heading over its column or of one of the column's cells.
   */
  predicate Tight(l: Layout)
    requires Fits(l)
  {
    forall j :: 0 <= j < |l.widths| ==>
      (l.heading.Some? && |l.heading.value[j]| == l.widths[j]) ||
      exists r :: 0 <= r < |l.rows| && |l.rows[r][j]| == l.widths[j]
  }

  function Min(a: nat, b: nat): nat
  {
    if a < b then a else b
  }

  /**
   * Formatting some cell raises an exception that `format` does not catch;
   * only columns that `zip` pairs with a spec are formatted.
   */
  predicate Escapes(cols: seq<seq<Cell>>, specs: seq<string>, apply: (string, seq<Cell>) -> Outcome, show: Cell -> string)
  {
    exists j, i :: 0 <= j < |cols| && j < |specs| && 0 <= i < |cols[j]| && Format(cols[j][i], specs[j], apply, show).None?
  }

  /** The '' cells a column is padded with format to '', so only the column's own cells can escape. */
  lemma {:induction false} EscapesPadded(cols: seq<seq<Cell>>, specs: seq<string>, height: nat,
                                         apply: (string, seq<Cell>) -> Outcome, show: Cell -> string)
    requires forall j :: 0 <= j < |cols| ==> |cols[j]| <= height
    ensures Escapes(cols, specs, apply, show) <==>
      exists j :: 0 <= j < |cols| && j < |specs| && FormatColumn(PadColumn(cols[j], height), specs[j], apply, show).None?
  {
    if Escapes(cols, specs, apply, show) {
      var j, i :| 0 <= j < |cols| && j < |specs| && 0 <= i < |cols[j]| && Format(cols[j][i], specs[j], apply, show).None?;
      assert PadColumn(cols[j], height)[i] == cols[j][i];
    }
    if exists j :: 0 <= j < |cols| && j < |specs| && FormatColumn(PadColumn(cols[j], height), specs[j], apply, show).None? {
      var j :| 0 <= j < |cols| && j < |specs| && FormatColumn(PadColumn(cols[j], height), specs[j], apply, show).None?;
      var col := PadColumn(cols[j], height);
      var i :| 0 <= i < |col| && Format(col[i], specs[j], apply, show).None?;
      if i >= |cols[j]| {
        assert false;
      }
      assert col[i] == col[..|cols[j]|][i] == cols[j][i];
    }
  }

  /** Each width of `Widths` is attained by the heading or by a cell of a row of `Rows`. */
  lemma {:induction false} RowsTight(content: seq<seq<string>>, hd: Option<seq<string>>, widths: seq<nat>, height: nat)
    requires forall j :: 0 <= j < |content| ==> |content[j]| == height
    requires Widths(content, hd) == Some(widths)
    ensures Fits(Layout(widths, hd, Rows(content, height)))
    ensures Tight(Layout(widths, hd, Rows(content, height)))
  {
    var l := Layout(widths, hd, Rows(content, height));
    assert forall r :: 0 <= r < |l.rows| ==> CellsFit(l.rows[r], widths);
    forall j | 0 <= j < |l.widths|
      ensures (l.heading.Some? && |l.heading.value[j]| == l.widths[j]) || exists r :: 0 <= r < |l.rows| && |l.rows[r][j]| == l.widths[j]
    {
      assert Attained(content[j], HeadingAt(hd, j), widths[j]);
      if !(hd.Some? && |hd.value[j]| == widths[j]) {
        var i :| 0 <= i < |content[j]| && |content[j][i]| == widths[j];
        assert l.rows[i][j] == content[j][i];
        assert |l.rows[i][j]| == l.widths[j];
      }
    }
    assert Tight(l);
  }

  /**
   * Everything `gen_table` computes up to the rows. A heading counts only
   * when it is a non-empty list (`if heading:`), and its entries are shown
   * with `str`.
   */
  function Arrange(cols: seq<seq<Cell>>, specs: Specs, heading: Option<seq<Cell>>,
                   apply: (string, seq<Cell>) -> Outcome, show: Cell -> string): (r: Result<Layout, TableError>)
    ensures r.Ok? ==> Fits(r.value) && Tight(r.value)
    ensures r.Ok? ==> r.value.heading == Headings(heading, show)
  {
    if |cols| == 0 then Err(NoColumns)
    else
      var height := Height(cols);
      var ss := ColumnSpecs(specs, |cols|);
      match Content(cols, ss, height, apply, show)
      case None => Err(FormatFailed)
      case Some(content) =>
        var hd := Headings(heading, show);
        assert forall j :: 0 <= j < |content| ==> |content[j]| == height;
        match Widths(content, hd)
        case None =>
          assert height == 0;
          Err(NoRows)
        case Some(widths) =>
          var rows := Rows(content, height);
          RowsTight(content, hd, widths, height);
          Ok(Layout(widths, hd, rows))
  }

  /** `gen_table` raises ValueError on an empty list of columns, and only then. */
  lemma {:induction false} ArrangeNoColumns(cols: seq<seq<Cell>>, specs: Specs, heading: Option<seq<Cell>>,
                                            apply: (string, seq<Cell>) -> Outcome, show: Cell -> string)
    ensures Arrange(cols, specs, heading, apply, show) == Err(NoColumns) <==> |cols| == 0
  {
  }

  /** An exception escapes `gen_table` exactly when formatting one of the given cells raises it. */
  lemma {:induction false} ArrangeFormatFailed(cols: seq<seq<Cell>>, specs: Specs, heading: Option<seq<Cell>>,
                                               apply: (string, seq<Cell>) -> Outcome, show: Cell -> string)
    ensures Arrange(cols, specs, heading, apply, show) == Err(FormatFailed) <==>
      |cols| > 0 && Escapes(cols, ColumnSpecs(specs, |cols|), apply, show)
  {
    if |cols| > 0 {
      EscapesPadded(cols, ColumnSpecs(specs, |cols|), Height(cols), apply, show);
    }
  }

  /**
   * `gen_table` raises ValueError for want of rows exactly when every
   * column is empty and at least one column is measured.
   */
  lemma {:induction false} ArrangeNoRows(cols: seq<seq<Cell>>, specs: Specs, heading: Option<seq<Cell>>,
                                         apply: (string, seq<Cell>) -> Outcome, show: Cell -> string)
    ensures Arrange(cols, specs, heading, apply, show) == Err(NoRows) <==>
      && |cols| > 0 && !Escapes(cols, ColumnSpecs(specs, |cols|), apply, show)
      && Height(cols) == 0 && NumWidths(Min(|cols|, |ColumnSpecs(specs, |cols|)|), Headings(heading, show)) > 0
  {
    if |cols| > 0 {
      var height, ss := Height(cols), ColumnSpecs(specs, |cols|);
      EscapesPadded(cols, ss, height, apply, show);
      var content := Content(cols, ss, height, apply, show);
      if content.Some? {
        WidthsUnmeasurable(content.value, Headings(heading, show), height);
      }
    }
  }

  /** With columns of equal height, a width cannot be measured exactly when the height is 0 and some width is wanted. */
  lemma {:induction false} WidthsUnmeasurable(content: seq<seq<string>>, hd: Option<seq<string>>, height: nat)
    requires forall j :: 0 <= j < |content| ==> |content[j]| == height
    ensures Widths(content, hd).None? <==> height == 0 && NumWidths(|content|, hd) > 0
  {
    if NumWidths(|content|, hd) > 0 {
      assert |content[0]| == height;
    }
  }

  /**
   * A laid-out table shows the cells it was given: its widths are measured on
   * the formatted, padded columns and its rows are those columns transposed.
   */
  lemma {:induction false} ArrangeCells(cols: seq<seq<Cell>>, specs: Specs, heading: Option<seq<Cell>>,
                                        apply: (string, seq<Cell>) -> Outcome, show: Cell -> string)
    requires Arrange(cols, specs, heading, apply, show).Ok?
    ensures |cols| > 0
    ensures var content := Content(cols, ColumnSpecs(specs, |cols|), Height(cols), apply, show);
      var l := Arrange(cols, specs, heading, apply, show).value;
      && content.Some?
      && Widths(content.value, Headings(heading, show)) == Some(l.widths)
      && (forall j :: 0 <= j < |content.value| ==> |content.value[j]| == Height(cols))
      && |l.rows| == (if |content.value| == 0 then 0 else Height(cols))
      && forall r, j :: 0 <= r < |l.rows| && 0 <= j < |content.value| ==>
           |l.rows[r]| == |content.value| && l.rows[r][j] == content.value[j][r]
  {
  }

  /** How many widths and rows a laid-out table has. */
  lemma {:induction false} ArrangeShape(cols: seq<seq<Cell>>, specs: Specs, heading: Option<seq<Cell>>,
                                        apply: (string, seq<Cell>) -> Outcome, show: Cell -> string)
    requires Arrange(cols, specs, heading, apply, show).Ok?
    ensures |cols| > 0
    ensures var l := Arrange(cols, specs, heading, apply, show).value;
      && |l.widths| == NumWidths(Min(|cols|, |ColumnSpecs(specs, |cols|)|), Headings(heading, show))
      && |l.rows| == if |ColumnSpecs(specs, |cols|)| == 0 then 0 else Height(cols)
  {
  }

  /** The text `gen_table` returns for a layout: `prefix + table + suffix`. */
  function Render(l: Layout): (text: string)
    ensures |text| >= 10 && text[0] == '+' && text[|text| - 1] == '\n'
  {
    var prefix := Filler(l.widths, '-') +
      (if l.heading.Some? then Tr(Pad(l.heading.value, l.widths), '|', ' ') + Filler(l.widths, '=') else "");
    var table := Join(RowRecords(l), Filler(l.widths, '-'));
    prefix + table + Filler(l.widths, '-')
  }

  /** `map(tr, rows)`: one record per row of padded cells. */
  function RowRecords(l: Layout): (recs: seq<string>)
    ensures |recs| == |l.rows|
    ensures forall r :: 0 <= r < |l.rows| ==> recs[r] == Tr(Pad(l.rows[r], l.widths), '|', ' ')
  {
    seq(|l.rows|, r requires 0 <= r < |l.rows| => Tr(Pad(l.rows[r], l.widths), '|', ' '))
  }

  /** `gen_table(cols, specs, heading)`. */
  function GenTable(cols: seq<seq<Cell>>, specs: Specs, heading: Option<seq<Cell>>,
                    apply: (string, seq<Cell>) -> Outcome, show: Cell -> string): (r: Result<string, TableError>)
    ensures r.Err? <==> Arrange(cols, specs, heading, apply, show).Err?
    ensures r.Err? ==> r.error == Arrange(cols, specs, heading, apply, show).error
    ensures r.Ok? ==> |r.value| >= 10 && r.value[0] == '+' && r.value[|r.value| - 1] == '\n'
  {
    match Arrange(cols, specs, heading, apply, show)
    case Err(e) => Err(e)
    case Ok(l) => Ok(Render(l))
  }

  /** `list(map(str, heading))` when the heading is a non-empty list; None otherwise. */
  function Headings(heading: Option<seq<Cell>>, show: Cell -> string): (hd: Option<seq<string>>)
    ensures hd.Some? <==> heading.Some? && |heading.value| > 0
    ensures hd.Some? ==> |hd.value| == |heading.value| && forall i :: 0 <= i < |hd.value| ==> hd.value[i] == show(heading.value[i])
  {
    if heading.Some? && |heading.value| > 0 then
      Some(seq(|heading.value|, i requires 0 <= i < |heading.value| => show(heading.value[i])))
    else None
  }

  // ---------------------------------------------------------------------
  // The shape of the text: a list of records of one length

  /** The concatenation of a list of strings, `''.join(ss)`. */
  function Concat(ss: seq<string>): string
  {
    if |ss| == 0 then "" else ss[0] + Concat(ss[1..])
  }

  /** `xs` with `sep` between neighbours: the records `sep.join(xs)` is made of. */
  function Intersperse(xs: seq<string>, sep: string): (r: seq<string>)
    ensures |r| == if |xs| == 0 then 0 else 2 * |xs| - 1
  {
    if |xs| <= 1 then xs else [xs[0], sep] + Intersperse(xs[1..], sep)
  }

  /** The total length of a list of strings. */
  function TotalLength(ss: seq<string>): nat
  {
    if |ss| == 0 then 0 else |ss[0]| + TotalLength(ss[1..])
  }

  function SumWidths(widths: seq<nat>): nat
  {
    if |widths| == 0 then 0 else widths[0] + SumWidths(widths[1..])
  }

  /**
   * The length of every record of a table with these widths: each column
   * takes its width plus a separator and two fill characters, and the
   * record closes with a separator and a newline; with no columns, a record
   * is the five characters `sep fill fill sep '\n'`.
   */
  function RecordLength(widths: seq<nat>): nat
  {
    if |widths| == 0 then 5 else SumWidths(widths) + 3 * |widths| + 2
  }

  /**
   * The records of the table in order: a `-` filler, the heading and a `=`
   * filler when there is a heading, the rows separated by `-` fillers, and
   * a closing `-` filler.
   */
  function Records(l: Layout): seq<string>
  {
    Opening(l) + Intersperse(RowRecords(l), Filler(l.widths, '-')) + [Filler(l.widths, '-')]
  }

  /** The records before the rows: a `-` filler, then the heading and a `=` filler when there is a heading. */
  function Opening(l: Layout): (r: seq<string>)
    ensures |r| == if l.heading.Some? then 3 else 1
  {
    [Filler(l.widths, '-')]
    + (if l.heading.Some? then [Tr(Pad(l.heading.value, l.widths), '|', ' '), Filler(l.widths, '=')] else [])
  }

  lemma {:induction false} ConcatAppend(a: seq<string>, b: seq<string>)
    ensures Concat(a + b) == Concat(a) + Concat(b)
  {
    if |a| == 0 {
      assert a + b == b;
    } else {
      assert (a + b)[0] == a[0];
      assert (a + b)[1..] == a[1..] + b;
      ConcatAppend(a[1..], b);
    }
  }

  /** `sep.join(xs)` is the concatenation of `xs` interspersed with `sep`. */
  lemma {:induction false} JoinIntersperse(xs: seq<string>, sep: string)
    ensures Join(xs, sep) == Concat(Intersperse(xs, sep))
  {
    if |xs| == 1 {
      assert Concat(xs) == xs[0] + Concat([]);
    } else if |xs| > 1 {
      JoinIntersperse(xs[1..], sep);
      ConcatAppend([xs[0], sep], Intersperse(xs[1..], sep));
      assert Concat([xs[0], sep]) == xs[0] + (sep + Concat([]));
    }
  }

  /** Even positions of `Intersperse(xs, sep)` hold the entries of `xs`, odd positions `sep`. */
  lemma {:induction false} IntersperseAt(xs: seq<string>, sep: string, k: nat)
    requires k < |Intersperse(xs, sep)|
    ensures Intersperse(xs, sep)[k] == if k % 2 == 0 then xs[k / 2] else sep
  {
    if |xs| > 1 && k >= 2 {
      IntersperseAt(xs[1..], sep, k - 2);
      assert Intersperse(xs, sep)[k] == Intersperse(xs[1..], sep)[k - 2];
    }
  }

  /** `gen_table` returns the concatenation of its records. */
  lemma {:induction false} RenderRecords(l: Layout)
    ensures Render(l) == Concat(Records(l))
  {
    var f := Filler(l.widths, '-');
    var h: seq<string> := if l.heading.Some? then [Tr(Pad(l.heading.value, l.widths), '|', ' '), Filler(l.widths, '=')] else [];
    var mid := Intersperse(RowRecords(l), f);
    JoinIntersperse(RowRecords(l), f);
    ConcatAppend(Opening(l) + mid, [f]);
    ConcatAppend(Opening(l), mid);
    ConcatAppend([f], h);
    assert Concat([f]) == f + Concat([]);
    if l.heading.Some? {
      assert h[1..] == [h[1]] && [h[1]][1..] == [];
      assert Concat(h) == h[0] + (h[1] + Concat([]));
    }
    assert Concat(h) == if l.heading.Some? then Tr(Pad(l.heading.value, l.widths), '|', ' ') + Filler(l.widths, '=') else "";
  }

  /** A table with R rows has 2R + 1 records (2 when R = 0), and two more with a heading. */
  lemma {:induction false} RecordCount(l: Layout)
    ensures |Records(l)| == (if |l.rows| == 0 then 2 else 2 * |l.rows| + 1) + (if l.heading.Some? then 2 else 0)
  {
  }

  /** The table opens with a `-` filler, then the heading and a `=` filler, and closes with a `-` filler. */
  lemma {:induction false} RecordFrame(l: Layout)
    ensures Records(l)[0] == Filler(l.widths, '-')
    ensures Records(l)[|Records(l)| - 1] == Filler(l.widths, '-')
    ensures l.heading.Some? ==>
      Records(l)[1] == Tr(Pad(l.heading.value, l.widths), '|', ' ') && Records(l)[2] == Filler(l.widths, '=')
  {
  }

  lemma {:induction false} MiddleAt(a: seq<string>, b: seq<string>, c: seq<string>, k: nat)
    requires k < |b|
    ensures (a + b + c)[|a| + k] == b[k]
  {
  }

  /** Row r of the table is record `o + 2r`, where `o` records open the table. */
  lemma {:induction false} RecordRow(l: Layout, r: nat)
    requires r < |l.rows|
    ensures Records(l)[|Opening(l)| + 2 * r] == Tr(Pad(l.rows[r], l.widths), '|', ' ')
  {
    var f, rows := Filler(l.widths, '-'), RowRecords(l);
    assert (2 * r) % 2 == 0 && (2 * r) / 2 == r;
    IntersperseAt(rows, f, 2 * r);
    MiddleAt(Opening(l), Intersperse(rows, f), [f], 2 * r);
    assert Records(l)[|Opening(l)| + 2 * r] == rows[r];
  }

  /** Every row but the last is followed by a `-` filler. */
  lemma {:induction false} RecordSeparator(l: Layout, r: nat)
    requires r + 1 < |l.rows|
    ensures Records(l)[|Opening(l)| + 2 * r + 1] == Filler(l.widths, '-')
  {
    var f, rows := Filler(l.widths, '-'), RowRecords(l);
    assert (2 * r + 1) % 2 == 1;
    IntersperseAt(rows, f, 2 * r + 1);
    MiddleAt(Opening(l), Intersperse(rows, f), [f], 2 * r + 1);
  }

  lemma {:induction false} JoinLength(items: seq<string>, sep: string)
    ensures |Join(items, sep)| == if |items| == 0 then 0 else TotalLength(items) + |sep| * (|items| - 1)
  {
    if |items| > 1 {
      JoinLength(items[1..], sep);
    }
  }

  lemma {:induction false} TotalLengthWidths(items: seq<string>, widths: seq<nat>)
    requires |items| == |widths| && forall i :: 0 <= i < |items| ==> |items[i]| == widths[i]
    ensures TotalLength(items) == SumWidths(widths)
  {
    if |items| > 0 {
      TotalLengthWidths(items[1..], widths[1..]);
    }
  }

  /** A record whose items are exactly as long as the widths has length `RecordLength(widths)`. */
  lemma {:induction false} TrLength(items: seq<string>, widths: seq<nat>, sep: char, fill: char)
    requires |items| == |widths| && forall i :: 0 <= i < |items| ==> |items[i]| == widths[i]
    ensures |Tr(items, sep, fill)| == RecordLength(widths)
  {
    JoinLength(items, [fill, sep, fill]);
    TotalLengthWidths(items, widths);
  }

  lemma {:induction false} FillerLength(widths: seq<nat>, fill: char)
    ensures |Filler(widths, fill)| == RecordLength(widths)
  {
    TrLength(seq(|widths|, i requires 0 <= i < |widths| => Repeat(fill, widths[i])), widths, '+', fill);
  }

  /** Padding cells that fit gives each cell exactly its column's width. */
  lemma {:induction false} PadLength(cells: seq<string>, widths: seq<nat>)
    requires CellsFit(cells, widths)
    ensures |Tr(Pad(cells, widths), '|', ' ')| == RecordLength(widths)
  {
    TrLength(Pad(cells, widths), widths, '|', ' ');
  }

  /** Every character of `sep.join(items)` comes from an item or from `sep`. */
  lemma {:induction false} JoinChars(items: seq<string>, sep: string, allowed: set<char>)
    requires forall i :: 0 <= i < |items| ==> forall ch :: ch in items[i] ==> ch in allowed
    requires forall ch :: ch in sep ==> ch in allowed
    ensures forall ch :: ch in Join(items, sep) ==> ch in allowed
  {
    if |items| > 1 {
      JoinChars(items[1..], sep, allowed);
    }
  }

  /** A filler is drawn with `+`, its fill character and the closing newline only. */
  lemma {:induction false} FillerChars(widths: seq<nat>, fill: char)
    ensures forall ch :: ch in Filler(widths, fill) ==> ch == '+' || ch == fill || ch == '\n'
  {
    var items := seq(|widths|, i requires 0 <= i < |widths| => Repeat(fill, widths[i]));
    JoinChars(items, [fill, '+', fill], {'+', fill});
  }

  /** A record framed by `+` or `|`: the frame character opens it and closes it before the newline. */
  predicate Framed(rec: string)
  {
    |rec| >= 5 && (rec[0] == '+' || rec[0] == '|') && rec[|rec| - 2] == rec[0] && rec[|rec| - 1] == '\n'
  }

  /**
   * Each record is a border drawn with `+` or a line of cells framed with
   * `|`: it starts with the frame character and ends with the frame
   * character and a newline.
   */
  lemma {:induction false} RecordEdges(l: Layout, k: nat)
    requires k < |Records(l)|
    ensures |Records(l)[k]| >= 5
    ensures var rec := Records(l)[k];
      (rec[0] == '+' || rec[0] == '|') && rec[|rec| - 2] == rec[0] && rec[|rec| - 1] == '\n'
  {
    var f := Filler(l.widths, '-');
    var opening, rows := Opening(l), RowRecords(l);
    var mid := Intersperse(rows, f);
    assert Framed(f);
    assert forall j :: 0 <= j < |opening| ==> Framed(opening[j]);
    if k < |opening| {
      assert Records(l)[k] == opening[k];
    } else if k < |opening| + |mid| {
      assert Records(l)[k] == mid[k - |opening|];
      IntersperseAt(rows, f, k - |opening|);
      if (k - |opening|) % 2 == 0 {
        assert Framed(rows[(k - |opening|) / 2]);
      }
    } else {
      assert Records(l)[k] == f;
    }
    assert Framed(Records(l)[k]);
  }

  /** When the cells fit their widths, every record of the table has the same length. */
  lemma {:induction false} RecordsAligned(l: Layout)
    requires Fits(l)
    ensures forall k :: 0 <= k < |Records(l)| ==> |Records(l)[k]| == RecordLength(l.widths)
  {
    var f := Filler(l.widths, '-');
    var opening, mid := Opening(l), Intersperse(RowRecords(l), f);
    FillerLength(l.widths, '-');
    FillerLength(l.widths, '=');
    if l.heading.Some? {
      PadLength(l.heading.value, l.widths);
    }
    assert forall k :: 0 <= k < |opening| ==> |opening[k]| == RecordLength(l.widths);
    forall k | 0 <= k < |mid|
      ensures |mid[k]| == RecordLength(l.widths)
    {
      IntersperseAt(RowRecords(l), f, k);
      if k % 2 == 0 {
        PadLength(l.rows[k / 2], l.widths);
      }
    }
  }

  lemma {:induction false} ConcatUniform(ss: seq<string>, n: nat)
    requires forall k :: 0 <= k < |ss| ==> |ss[k]| == n
    ensures |Concat(ss)| == |ss| * n
  {
    if |ss| > 0 {
      ConcatUniform(ss[1..], n);
      assert |ss| * n == n + (|ss| - 1) * n;
    }
  }

  /**
   * A table laid out by `gen_table` is a rectangle: its length is its
   * number of records times the common record length, it starts with the
   * corner `+` of a filler and, as its documentation promises, ends with a
   * newline.
   */
  lemma {:induction false} GenTableShape(cols: seq<seq<Cell>>, specs: Specs, heading: Option<seq<Cell>>,
                                         apply: (string, seq<Cell>) -> Outcome, show: Cell -> string)
    requires GenTable(cols, specs, heading, apply, show).Ok?
    ensures var out, l := GenTable(cols, specs, heading, apply, show).value, Arrange(cols, specs, heading, apply, show).value;
      && out == Concat(Records(l))
      && |out| == |Records(l)| * RecordLength(l.widths)
      && out[0] == '+' && out[|out| - 1] == '\n'
  {
    var l := Arrange(cols, specs, heading, apply, show).value;
    var recs := Records(l);
    RenderRecords(l);
    RecordsAligned(l);
    ConcatUniform(recs, RecordLength(l.widths));
    ConcatAppend(recs[..|recs| - 1], [recs[|recs| - 1]]);
    assert recs == recs[..|recs| - 1] + [recs[|recs| - 1]];
    assert Concat([recs[|recs| - 1]]) == recs[|recs| - 1] + Concat([]);
    RecordFrame(l);
  }
}
