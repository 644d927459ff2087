/** The text formats of src/deft/formats.py: LinesFormat, which stores a sequence of strings
    one per line, and write_table_as_text, which writes a table with every column padded to
    its widest cell, numbers right-aligned and everything else left-aligned. */
module Formats {
  import opened Wrappers
  import opened Text
  import opened PyValues
  import opened Streams

  /** os.linesep on a POSIX system. */
  const LineSep := "\n"

  // ---------------------------------------------------------------------
  // LinesFormat

  /** The text LinesFormat.save writes: each element followed by "\n". */
  function LinesText(lines: seq<string>): (r: string)
    ensures |r| == TotalLength(lines) + |lines|
    decreases |lines|
  {
    if lines == [] then "" else lines[0] + "\n" + LinesText(lines[1..])
  }

  /** LinesFormat(list).load: the lines of the text, without their terminators. */
  function LoadLines(text: string): (r: seq<string>)
    ensures r == [] <==> text == ""
    ensures forall i :: 0 <= i < |r| ==> NoLineBreaks(r[i])
  {
    SplitLines(text)
  }

  /** LinesFormat.save(lines, output): each element, then "\n", written in turn. */
  method SaveLines(lines: seq<string>, output: StringIO) returns (o: StringIO)
    ensures o == Write(output, LinesText(lines))
  {
    o := output;
    for i := 0 to |lines|
      invariant o == Write(output, LinesText(lines[..i]))
    {
      WriteConcat(output, LinesText(lines[..i]), lines[i]);
      o := Write(o, lines[i]);
      WriteConcat(output, LinesText(lines[..i]) + lines[i], "\n");
      o := Write(o, "\n");
      LinesTextSnoc(lines[..i], lines[i]);
      PrefixSnoc(lines, i);
    }
    PrefixSnoc(lines, |lines|);
  }

  lemma {:induction false} LinesTextSnoc(lines: seq<string>, x: string)
    ensures LinesText(lines + [x]) == LinesText(lines) + x + "\n"
    decreases |lines|
  {
    if lines == [] {
      assert LinesText([x]) == x + "\n" + LinesText([]);
    } else {
      calc {
        LinesText(lines + [x]);
        { assert (lines + [x])[0] == lines[0] && (lines + [x])[1..] == lines[1..] + [x]; }
        lines[0] + "\n" + LinesText(lines[1..] + [x]);
        { LinesTextSnoc(lines[1..], x); }
        lines[0] + "\n" + (LinesText(lines[1..]) + x + "\n");
        LinesText(lines) + x + "\n";
      }
    }
  }

  /** Lines without line breaks survive a save and a load. */
  lemma {:induction false} LinesRoundTrip(lines: seq<string>)
    requires forall i :: 0 <= i < |lines| ==> NoLineBreaks(lines[i])
    ensures LoadLines(LinesText(lines)) == lines
    decreases |lines|
  {
    if lines != [] {
      SplitLinesCons(lines[0], LinesText(lines[1..]));
      assert lines[0] + "\n" + LinesText(lines[1..]) == LinesText(lines);
      LinesRoundTrip(lines[1..]);
    }
  }

  /** A file whose last line has no terminator loads the same lines as one whose last line
      has: the missing final newline is tolerated. */
  lemma {:induction false} LinesWithoutFinalNewline(lines: seq<string>, last: string)
    requires forall i :: 0 <= i < |lines| ==> NoLineBreaks(lines[i])
    requires last != "" && NoLineBreaks(last)
    ensures LoadLines(LinesText(lines) + last) == lines + [last]
    decreases |lines|
  {
    if lines == [] {
      assert LinesText(lines) + last == last;
      SplitLinesOfLine(last);
    } else {
      var rest := LinesText(lines[1..]) + last;
      calc {
        LoadLines(LinesText(lines) + last);
        { assert LinesText(lines) + last == lines[0] + "\n" + rest; }
        SplitLines(lines[0] + "\n" + rest);
        { SplitLinesCons(lines[0], rest); }
        [lines[0]] + SplitLines(rest);
        { LinesWithoutFinalNewline(lines[1..], last); }
        [lines[0]] + (lines[1..] + [last]);
        { assert lines == [lines[0]] + lines[1..]; }
        lines + [last];
      }
    }
  }

  // ---------------------------------------------------------------------
  // write_table_as_text

  type Row = seq<PyValue>

  /** The two formatters: "{1:>{0}}" for an int column, "{1:<{0}}" for any other. */
  datatype Align = AlignLeft | AlignRight

  /** align_for(v): right for a value whose type is int. */
  function AlignFor(v: PyValue): Align {
    if v.PInt? then AlignRight else AlignLeft
  }

  /** A cell's text in a field of width w, never truncated: spaces before it when aligned
      right, after it when aligned left. */
  function Aligned(s: string, a: Align, w: int): (r: string)
    ensures |s| <= w ==> |r| == w
    ensures |s| >= w ==> r == s
    ensures a == AlignRight ==> r == Spaces(|r| - |s|) + s
    ensures a == AlignLeft ==> r == s + Spaces(|r| - |s|)
  {
    if a == AlignRight then PadLeft(s, w) else PadRight(s, w)
  }

  /** map(len, map(str, row)) */
  function Lengths(row: Row): (r: seq<int>)
    ensures |r| == |row| && forall i :: 0 <= i < |row| ==> r[i] == |Str(row[i])|
  {
    seq(|row|, i requires 0 <= i < |row| => |Str(row[i])|)
  }

  function Max(a: int, b: int): int {
    if a < b then b else a
  }

  /** max_elts(a, b), Python 2's map(max, a, b): as long as the longer list, and where only
      one list has an element (the other gives None, which max() passes over) that element. */
  function MaxElts(a: seq<int>, b: seq<int>): (r: seq<int>)
    ensures |r| == Max(|a|, |b|)
    ensures forall i :: 0 <= i < |r| ==>
      r[i] == if i >= |a| then b[i] else if i >= |b| then a[i] else Max(a[i], b[i])
  {
    seq(Max(|a|, |b|), i requires 0 <= i < Max(|a|, |b|) =>
      if i >= |a| then b[i] else if i >= |b| then a[i] else Max(a[i], b[i]))
  }

  /** reduce(max_elts, [map(len, t) for t in table], zeros) */
  function ColumnWidths(rows: seq<Row>, zeros: seq<int>): (r: seq<int>)
    ensures |r| >= |zeros| && forall i :: 0 <= i < |zeros| ==> r[i] >= zeros[i]
    ensures forall j :: 0 <= j < |rows| ==> |rows[j]| <= |r|
    decreases |rows|
  {
    if rows == [] then zeros
    else MaxElts(ColumnWidths(rows[..|rows| - 1], zeros), Lengths(rows[|rows| - 1]))
  }

  /** [0 for elt in features_table[0]] */
  function Zeros(n: nat): (r: seq<int>)
    ensures |r| == n && forall i :: 0 <= i < n ==> r[i] == 0
  {
    seq(n, _ => 0)
  }

  /** The widths write_table_as_text gives the columns of a non-empty table. */
  function TableWidths(table: seq<Row>): seq<int>
    requires table != []
  {
    ColumnWidths(table, Zeros(|table[0]|))
  }

  /** The line formatted_table and " ".join make of a row, given the column alignments and
      widths. */
  function FormatRow(row: Row, aligns: seq<Align>, widths: seq<int>): (r: string)
    requires |row| <= |aligns| && |row| <= |widths|
    ensures row == [] ==> r == ""
    ensures row != [] && (forall i :: 0 <= i < |row| ==> |Str(row[i])| <= widths[i]) ==>
      |r| == Sum(widths[..|row|]) + |row| - 1
  {
    var cells := seq(|row|, i requires 0 <= i < |row| => Aligned(Str(row[i]), aligns[i], widths[i]));
    assert row != [] && (forall i :: 0 <= i < |row| ==> |Str(row[i])| <= widths[i]) ==>
      |JoinWith(" ", cells)| == Sum(widths[..|row|]) + |row| - 1 by {
      if row != [] && (forall i :: 0 <= i < |row| ==> |Str(row[i])| <= widths[i]) {
        JoinWithLength(cells);
        TotalLengthOfFitted(cells, widths);
      }
    }
    JoinWith(" ", cells)
  }

  /** The lines write_table_as_text writes, or the error it raises first: a row longer than
      the first has no formatter for its extra cells, and map(partial, aligns, widths) then
      calls partial(None, width), a TypeError. */
  function TableLines(table: seq<Row>): (r: Result<seq<string>>)
    ensures table == [] ==> r == Ok([])
    ensures r.Ok? ==> |r.value| == |table|
  {
    if table == [] then Ok([])
    else
      var widths := TableWidths(table);
      var aligns := seq(|table[0]|, i requires 0 <= i < |table[0]| => AlignFor(table[0][i]));
      if |widths| > |aligns| then Err(TypeError("the first argument must be callable"))
      else
        LongestRowBound(table, Zeros(|table[0]|), |table|);
        Ok(seq(|table|, j requires 0 <= j < |table| => FormatRow(table[j], aligns, widths)))
  }

  /** write_table_as_text(table, out): nothing for an empty table, otherwise each line
      followed by os.linesep. */
  method WriteTableAsText(table: seq<Row>, out: StringIO) returns (r: Result<StringIO>)
    ensures table == [] ==> r == Ok(out)
    ensures TableLines(table).Err? ==> r == Err(TableLines(table).error)
    ensures TableLines(table).Ok? ==> r == Ok(Write(out, LinesText(TableLines(table).value)))
  {
    if |table| == 0 {
      return Ok(out);
    }
    var formatted := TableLines(table);
    if formatted.Err? {
      return Err(formatted.error);
    }
    var lines := formatted.value;
    var o := out;
    for j := 0 to |lines|
      invariant o == Write(out, LinesText(lines[..j]))
    {
      WriteConcat(out, LinesText(lines[..j]), lines[j]);
      o := Write(o, lines[j]);
      WriteConcat(out, LinesText(lines[..j]) + lines[j], LineSep);
      o := Write(o, LineSep);
      LinesTextSnoc(lines[..j], lines[j]);
      PrefixSnoc(lines, j);
    }
    PrefixSnoc(lines, |lines|);
    r := Ok(o);
  }


  // ---------------------------------------------------------------------
  // Properties of the table layout

  /** The widths are as many as the longest row (or the zeros) has cells. */
  lemma {:induction false} LongestRowBound(rows: seq<Row>, zeros: seq<int>, k: nat)
    requires k <= |rows|
    ensures |ColumnWidths(rows[..k], zeros)| >= |zeros|
    ensures forall j :: 0 <= j < k ==> |rows[j]| <= |ColumnWidths(rows[..k], zeros)|
    ensures |ColumnWidths(rows[..k], zeros)| > |zeros| ==>
      exists j :: 0 <= j < k && |rows[j]| == |ColumnWidths(rows[..k], zeros)|
    ensures rows[..|rows|] == rows
    decreases k
  {
    assert rows[..|rows|] == rows;
    if k > 0 {
      assert rows[..k][..k - 1] == rows[..k - 1];
      LongestRowBound(rows, zeros, k - 1);
    }
  }

  /** One step of the fold: the widths after a row are max_elts of those before it and the
      row's lengths. */
  lemma ColumnWidthsStep(rows: seq<Row>, n: nat)
    requires rows != []
    ensures ColumnWidths(rows, Zeros(n))
      == MaxElts(ColumnWidths(rows[..|rows| - 1], Zeros(n)), Lengths(rows[|rows| - 1]))
  {
  }

  /** No cell's text is wider than its column. */
  lemma {:induction false} CellFitsColumn(rows: seq<Row>, n: nat, j: nat, i: nat)
    requires j < |rows| && i < |rows[j]|
    ensures i < |ColumnWidths(rows, Zeros(n))| && |Str(rows[j][i])| <= ColumnWidths(rows, Zeros(n))[i]
    decreases |rows|
  {
    var init := rows[..|rows| - 1];
    ColumnWidthsStep(rows, n);
    if j < |init| {
      assert rows[j] == init[j];
      CellFitsColumn(init, n, j, i);
    }
  }

  /** No column is narrower than zero. */
  lemma {:induction false} ColumnWidthNonNegative(rows: seq<Row>, n: nat, i: nat)
    requires i < |ColumnWidths(rows, Zeros(n))|
    ensures ColumnWidths(rows, Zeros(n))[i] >= 0
    decreases |rows|
  {
    if rows != [] {
      var init := rows[..|rows| - 1];
      ColumnWidthsStep(rows, n);
      if i < |ColumnWidths(init, Zeros(n))| {
        ColumnWidthNonNegative(init, n, i);
      }
    }
  }

  /** A column wider than zero is exactly as wide as some row's cell in it. */
  lemma {:induction false} WidestCellInColumn(rows: seq<Row>, n: nat, i: nat) returns (j: nat)
    requires i < |ColumnWidths(rows, Zeros(n))| && ColumnWidths(rows, Zeros(n))[i] != 0
    ensures j < |rows| && i < |rows[j]| && |Str(rows[j][i])| == ColumnWidths(rows, Zeros(n))[i]
    decreases |rows|
  {
    var init := rows[..|rows| - 1];
    var last := rows[|rows| - 1];
    ColumnWidthsStep(rows, n);
    var w0 := ColumnWidths(init, Zeros(n));
    if i < |last| && ColumnWidths(rows, Zeros(n))[i] == |Str(last[i])| {
      j := |rows| - 1;
    } else {
      j := WidestCellInColumn(init, n, i);
      assert rows[j] == init[j];
    }
  }

  /** No row has more cells than there are columns, and no cell's text is wider than its
      column. */
  lemma AllCellsFit(rows: seq<Row>, n: nat)
    ensures forall j :: 0 <= j < |rows| ==> |rows[j]| <= |ColumnWidths(rows, Zeros(n))|
    ensures forall j, i :: 0 <= j < |rows| && 0 <= i < |rows[j]| ==>
      |Str(rows[j][i])| <= ColumnWidths(rows, Zeros(n))[i]
  {
    forall j | 0 <= j < |rows|
      ensures |rows[j]| <= |ColumnWidths(rows, Zeros(n))|
    {
      if |rows[j]| > 0 {
        CellFitsColumn(rows, n, j, |rows[j]| - 1);
      }
    }
    forall j, i | 0 <= j < |rows| && 0 <= i < |rows[j]|
      ensures |Str(rows[j][i])| <= ColumnWidths(rows, Zeros(n))[i]
    {
      CellFitsColumn(rows, n, j, i);
    }
  }

  /** Each column is as wide as its widest cell: no narrower than zero, and when wider than
      zero exactly as wide as some row's cell in it. */
  lemma ColumnWidthsAttained(rows: seq<Row>, n: nat)
    ensures forall i :: 0 <= i < |ColumnWidths(rows, Zeros(n))| ==> ColumnWidths(rows, Zeros(n))[i] >= 0
    ensures forall i :: 0 <= i < |ColumnWidths(rows, Zeros(n))| && ColumnWidths(rows, Zeros(n))[i] != 0 ==>
      exists j :: 0 <= j < |rows| && i < |rows[j]| && |Str(rows[j][i])| == ColumnWidths(rows, Zeros(n))[i]
  {
    forall i | 0 <= i < |ColumnWidths(rows, Zeros(n))|
      ensures ColumnWidths(rows, Zeros(n))[i] >= 0
      ensures ColumnWidths(rows, Zeros(n))[i] != 0 ==>
        exists j :: 0 <= j < |rows| && i < |rows[j]| && |Str(rows[j][i])| == ColumnWidths(rows, Zeros(n))[i]
    {
      ColumnWidthNonNegative(rows, n, i);
      if ColumnWidths(rows, Zeros(n))[i] != 0 {
        var j := WidestCellInColumn(rows, n, i);
      }
    }
  }

  /** Total length of a sequence of strings. */
  function TotalLength(xs: seq<string>): nat
    decreases |xs|
  {
    if xs == [] then 0 else |xs[0]| + TotalLength(xs[1..])
  }

  lemma {:induction false} JoinWithLength(xs: seq<string>)
    requires xs != []
    ensures |JoinWith(" ", xs)| == TotalLength(xs) + |xs| - 1
    decreases |xs|
  {
    if |xs| > 1 {
      JoinWithLength(xs[1..]);
    }
  }

  /** Sum of a sequence of widths. */
  function Sum(xs: seq<int>): int
    decreases |xs|
  {
    if xs == [] then 0 else xs[0] + Sum(xs[1..])
  }

  /** Cells each exactly as wide as their column take the columns' widths in all. */
  lemma {:induction false} TotalLengthOfFitted(cells: seq<string>, widths: seq<int>)
    requires |cells| <= |widths| && forall i :: 0 <= i < |cells| ==> |cells[i]| == widths[i]
    ensures TotalLength(cells) == Sum(widths[..|cells|])
    decreases |cells|
  {
    if cells != [] {
      TotalLengthOfFitted(cells[1..], widths[1..]);
      assert widths[1..][..|cells| - 1] == widths[..|cells|][1..];
    }
  }

  lemma {:induction false} TotalLengthOfWidths(xs: seq<string>, ys: seq<string>)
    requires |xs| == |ys| && forall i :: 0 <= i < |xs| ==> |xs[i]| == |ys[i]|
    ensures TotalLength(xs) == TotalLength(ys)
    decreases |xs|
  {
    if xs != [] {
      TotalLengthOfWidths(xs[1..], ys[1..]);
    }
  }

  /** A table whose rows all have as many cells as the first is laid out without error, in
      as many columns as the first row has cells. */
  lemma RectangularTableFormats(table: seq<Row>)
    requires table != [] && forall r :: 0 <= r < |table| ==> |table[r]| == |table[0]|
    ensures |TableWidths(table)| == |table[0]|
    ensures TableLines(table).Ok?
  {
    LongestRowBound(table, Zeros(|table[0]|), |table|);
  }

  /** In such a table every cell is padded to its column's width, with spaces before it when
      the first row's value in its column is an int and after it otherwise. */
  lemma RectangularTableCellAligned(table: seq<Row>, j: nat, i: nat)
    requires table != [] && forall r :: 0 <= r < |table| ==> |table[r]| == |table[0]|
    requires j < |table| && i < |table[0]|
    ensures i < |TableWidths(table)|
    ensures var w := TableWidths(table);
      var cell := Aligned(Str(table[j][i]), AlignFor(table[0][i]), w[i]);
      |cell| == w[i]
      && cell == (if table[0][i].PInt? then Spaces(w[i] - |Str(table[j][i])|) + Str(table[j][i])
                  else Str(table[j][i]) + Spaces(w[i] - |Str(table[j][i])|))
  {
    RectangularTableFormats(table);
    CellFitsColumn(table, |table[0]|, j, i);
  }

  /** In such a table every line has the same length, so the columns line up. */
  lemma RectangularTableLinesAlign(table: seq<Row>, j: nat, k: nat)
    requires table != [] && forall r :: 0 <= r < |table| ==> |table[r]| == |table[0]|
    requires j < |table| && k < |table|
    ensures TableLines(table).Ok?
    ensures |TableLines(table).value[j]| == |TableLines(table).value[k]|
  {
    RectangularTableFormats(table);
    var w := TableWidths(table);
    var aligns := seq(|table[0]|, i requires 0 <= i < |table[0]| => AlignFor(table[0][i]));
    var cellsJ := seq(|table[j]|, c requires 0 <= c < |table[j]| => Aligned(Str(table[j][c]), aligns[c], w[c]));
    var cellsK := seq(|table[k]|, c requires 0 <= c < |table[k]| => Aligned(Str(table[k][c]), aligns[c], w[c]));
    assert TableLines(table).value[j] == JoinWith(" ", cellsJ);
    assert TableLines(table).value[k] == JoinWith(" ", cellsK);
    if |table[0]| > 0 {
      forall c | 0 <= c < |cellsJ|
        ensures |cellsJ[c]| == |cellsK[c]|
      {
        CellFitsColumn(table, |table[0]|, j, c);
        CellFitsColumn(table, |table[0]|, k, c);
      }
      JoinWithLength(cellsJ);
      JoinWithLength(cellsK);
      TotalLengthOfWidths(cellsJ, cellsK);
    }
  }
}
