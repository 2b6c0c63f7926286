/**
 * `transform_dataframe`: the settlement report exported as a table is reshaped
 * into five named columns of seven rows. Column one is the six-line card read
 * from the free-text summary in cell [0,0]; the other four copy rows 3 to 8 of
 * source columns 0, 4, 8 and 12; the last row carries the totals, each read as
 * the second `': '`-separated piece of a cell of row 9.
 *
 * The table is a rectangular grid of cells, each either text or missing (NaN).
 * The code checks no dimension, so a table of the wrong shape ends in whichever
 * Python exception the first failing access raises; the model returns that
 * exception as a value, in the order in which the code would meet it.
 */
module Reshape {
  import opened Wrappers
  import opened Summary

  datatype Cell = Text(text: string) | Missing

  type Grid = seq<seq<Cell>>

  /** A DataFrame has the same number of columns in every row. */
  predicate Rectangular(g: Grid) {
    forall i :: 0 <= i < |g| ==> |g[i]| == |g[0]|
  }

  function Width(g: Grid): nat {
    if |g| == 0 then 0 else |g[0]|
  }

  /** The uncaught exceptions the reshape can end in. */
  datatype Error =
    | IndexError      // an `iloc` position outside the table, or `split(': ')[1]` with no separator
    | ValueError      // the new columns do not all have the same length
    | AttributeError  // `.split` called on a missing (NaN) cell

  /** The five output columns, under the names the code gives them. */
  datatype Report = Report(
    transactionTotals: seq<string>,
    salesSummary: seq<string>,
    declinedSummary: seq<string>,
    creditSummary: seq<string>,
    netTotal: seq<string>)

  /** A reshaped table; `None` after the summary cell failed to parse; or an exception. */
  datatype Outcome = Table(report: Report) | NoResult | Raises(error: Error)

  // ---------------------------------------------------------------------------
  // `str.split(': ')`

  /** A separator `': '` starts at position i of s. */
  predicate SeparatorAt(s: string, i: int) {
    0 <= i && i + 2 <= |s| && s[i] == ':' && s[i + 1] == ' '
  }

  predicate SeparatorFree(s: string) {
    forall i :: 0 <= i < |s| ==> !SeparatorAt(s, i)
  }

  /** The leftmost separator at or after position `from`. */
  function FindSeparator(s: string, from: nat): (r: Option<nat>)
    requires from <= |s|
    ensures r.Some? ==> from <= r.value && SeparatorAt(s, r.value)
    ensures r.Some? ==> forall i :: from <= i < r.value ==> !SeparatorAt(s, i)
    ensures r.None? ==> forall i :: from <= i < |s| ==> !SeparatorAt(s, i)
    decreases |s| - from
  {
    if |s| < from + 2 then None
    else if s[from] == ':' && s[from + 1] == ' ' then Some(from)
    else FindSeparator(s, from + 1)
  }

  /** The pieces joined back with the separator between them. */
  function JoinPieces(pieces: seq<string>): string
    requires 0 < |pieces|
  {
    if |pieces| == 1 then pieces[0] else pieces[0] + ": " + JoinPieces(pieces[1..])
  }

  /** `s.split(': ')`: the separator-free pieces between left-to-right separators. */
  function Split(s: string): (pieces: seq<string>)
    ensures 0 < |pieces|
    ensures JoinPieces(pieces) == s
    ensures forall k :: 0 <= k < |pieces| ==> SeparatorFree(pieces[k])
    decreases |s|
  {
    match FindSeparator(s, 0)
    case None => [s]
    case Some(p) =>
      var head, rest := s[..p], s[p + 2..];
      assert SeparatorFree(head) by {
        forall i | SeparatorAt(head, i) ensures false {
          assert SeparatorAt(s, i);
        }
      }
      assert s == head + ": " + rest;
      [head] + Split(rest)
  }

  /** A tag, the separator and a separator-free value split into exactly the tag and the value. */
  lemma {:induction false} SplitLabelled(tag: string, value: string)
    requires SeparatorFree(tag) && SeparatorFree(value)
    ensures Split(tag + ": " + value) == [tag, value]
  {
    var s := tag + ": " + value;
    var n := |tag|;
    assert SeparatorAt(s, n);
    forall i | 0 <= i < n
      ensures !SeparatorAt(s, i)
    {
      if i + 1 < n {
        assert !SeparatorAt(tag, i);
      }
    }
    assert FindSeparator(s, 0) == Some(n);
    assert s[..n] == tag && s[n + 2..] == value;
  }

  // ---------------------------------------------------------------------------
  // The reshape

  /** `fillna('')`: a missing cell reads as the empty string. */
  function Fill(c: Cell): string {
    match c
    case Text(s) => s
    case Missing => ""
  }

  /** `fillna('')` of a column: text cells are kept, missing cells become empty strings. */
  function Fills(cells: seq<Cell>): (texts: seq<string>)
    ensures |texts| == |cells|
    ensures forall i :: 0 <= i < |cells| && cells[i].Text? ==> texts[i] == cells[i].text
    ensures forall i :: 0 <= i < |cells| && cells[i].Missing? ==> texts[i] == ""
  {
    seq(|cells|, i requires 0 <= i < |cells| => Fill(cells[i]))
  }

  /** `df.iloc[3:9, col]` of a table with at least nine rows. */
  function BodyCells(g: Grid, col: nat): (cells: seq<Cell>)
    requires Rectangular(g) && 9 <= |g| && col < Width(g)
    ensures |cells| == 6 && forall i :: 3 <= i < 9 ==> cells[i - 3] == g[i][col]
  {
    seq(6, i requires 0 <= i < 6 => g[3 + i][col])
  }

  /** `cell.split(': ')[1]` for one cell of row 9. */
  function TotalOf(c: Cell): (r: Result<string, Error>)
    ensures r.Ok? <==> c.Text? && 2 <= |Split(c.text)|
    ensures r.Ok? ==> r.value == Split(c.text)[1]
    ensures c.Missing? ==> r == Err(AttributeError)
    ensures c.Text? && |Split(c.text)| < 2 ==> r == Err(IndexError)
  {
    match c
    case Missing => Err(AttributeError)
    case Text(s) =>
      var pieces := Split(s);
      if |pieces| < 2 then Err(IndexError) else Ok(pieces[1])
  }

  /** The source columns copied into the output, in output order. */
  function SummaryColumn(k: int): nat
    requires 0 <= k < 4
  {
    4 * k
  }

  /**
   * The totals of row 9, read from cells 0, 4, 8 and 12 in that order (the code
   * reads cell 0 twice, for the first two output columns, with the same outcome).
   */
  function RowTotals(row: seq<Cell>): (r: Result<seq<string>, Error>)
    requires 13 <= |row|
    ensures r.Ok? <==> forall k :: 0 <= k < 4 ==> TotalOf(row[SummaryColumn(k)]).Ok?
    ensures r.Ok? ==> |r.value| == 4 && forall k :: 0 <= k < 4 ==> r.value[k] == TotalOf(row[SummaryColumn(k)]).value
    ensures r.Err? ==>
      exists k :: 0 <= k < 4 && TotalOf(row[SummaryColumn(k)]) == Err(r.error)
        && forall j :: 0 <= j < k ==> TotalOf(row[SummaryColumn(j)]).Ok?
  {
    var totals := [TotalOf(row[0]), TotalOf(row[4]), TotalOf(row[8]), TotalOf(row[12])];
    SummaryTotals(row, TotalOf, totals);
    FirstError(totals)
  }

  /** Four lookups made on cells 0, 4, 8 and 12, indexed by output column. */
  lemma SummaryTotals<X>(row: seq<Cell>, lookup: Cell -> X, xs: seq<X>)
    requires 13 <= |row|
    requires xs == [lookup(row[0]), lookup(row[4]), lookup(row[8]), lookup(row[12])]
    ensures |xs| == 4 && forall k :: 0 <= k < 4 ==> xs[k] == lookup(row[SummaryColumn(k)])
  {
  }

  /** The first failure among four lookups, in order, or all four values. */
  function FirstError(totals: seq<Result<string, Error>>): (r: Result<seq<string>, Error>)
    requires |totals| == 4
    ensures r.Ok? <==> forall k :: 0 <= k < 4 ==> totals[k].Ok?
    ensures r.Ok? ==> |r.value| == 4 && forall k :: 0 <= k < 4 ==> r.value[k] == totals[k].value
    ensures r.Err? ==>
      exists k :: 0 <= k < 4 && totals[k] == Err(r.error)
        && forall j :: 0 <= j < k ==> totals[j].Ok?
  {
    if totals[0].Err? then Err(totals[0].error)
    else if totals[1].Err? then Err(totals[1].error)
    else if totals[2].Err? then Err(totals[2].error)
    else if totals[3].Err? then Err(totals[3].error)
    else Ok([totals[0].value, totals[1].value, totals[2].value, totals[3].value])
  }

  /** Every access of the reshape succeeds. */
  predicate Reshapes(g: Grid)
    requires Rectangular(g)
  {
    10 <= |g| && 13 <= Width(g) && g[0][0].Text?
    && forall k :: 0 <= k < 4 ==> TotalOf(g[9][SummaryColumn(k)]).Ok?
  }

  /** The reshape of a table, or how it fails. */
  function Transform(g: Grid): (r: Outcome)
    requires Rectangular(g)
    ensures r.NoResult? <==> 0 < Width(g) && g[0][0].Missing?
    ensures r.Table? <==> Reshapes(g)
    ensures r == Raises(ValueError) <==> 13 <= Width(g) && |g| < 9 && g[0][0].Text?
    ensures r.Table? ==>
      && |r.report.transactionTotals| == 7 && |r.report.salesSummary| == 7
      && |r.report.declinedSummary| == 7 && |r.report.creditSummary| == 7
      && |r.report.netTotal| == 7
    ensures r.Table? ==> r.report.transactionTotals[..6] == Card(Totals(g[0][0].text))
    ensures r.Table? ==> r.report.transactionTotals[6] == r.report.salesSummary[6]
  {
    if Width(g) == 0 then Raises(IndexError)
    else if g[0][0].Missing? then NoResult
    else if Width(g) < 13 then Raises(IndexError)
    else if |g| < 9 then Raises(ValueError)
    else if |g| < 10 then Raises(IndexError)
    else
      match RowTotals(g[9])
      case Err(e) => Raises(e)
      case Ok(t) =>
        var card := Card(Totals(g[0][0].text));
        assert (card + ["Total sales: " + t[0]])[..6] == card;
        Table(Report(
          card + ["Total sales: " + t[0]],
          Fills(BodyCells(g, 0)) + ["Total sales: " + t[0]],
          Fills(BodyCells(g, 4)) + ["Total declined: " + t[1]],
          Fills(BodyCells(g, 8)) + ["Total credit: " + t[2]],
          Fills(BodyCells(g, 12)) + ["Total net: " + t[3]]))
  }

  // ---------------------------------------------------------------------------
  // Properties of the reshape

  /** Column j is one of the four source columns the reshape copies. */
  predicate ReadColumn(j: int) {
    j == 0 || j == 4 || j == 8 || j == 12
  }

  /** The cells Transform reads: [0,0], and rows 3 to 9 of columns 0, 4, 8 and 12. */
  predicate SameReadCells(g: Grid, h: Grid)
    requires Rectangular(g) && Rectangular(h)
  {
    && |g| == |h| && Width(g) == Width(h)
    && (0 < Width(g) ==> g[0][0] == h[0][0])
    && forall i, j :: 3 <= i < |g| && i < 10 && 0 <= j < Width(g) && ReadColumn(j) ==> g[i][j] == h[i][j]
  }

  /** Two tables that agree on rows 3 to 8 of a column have the same body cells there. */
  lemma BodyCellsAgree(g: Grid, h: Grid, col: nat)
    requires Rectangular(g) && Rectangular(h) && 9 <= |g| && 9 <= |h| && col < Width(g) && col < Width(h)
    requires forall i :: 3 <= i < 9 ==> g[i][col] == h[i][col]
    ensures BodyCells(g, col) == BodyCells(h, col)
  {
    assert forall i :: 0 <= i < 6 ==> BodyCells(g, col)[i] == BodyCells(h, col)[i];
  }

  /** The outcome depends on the table's shape and on the cells it reads, and on nothing else. */
  lemma {:induction false} OnlyReadCellsMatter(g: Grid, h: Grid)
    requires Rectangular(g) && Rectangular(h) && SameReadCells(g, h)
    ensures Transform(g) == Transform(h)
  {
    if 10 <= |g| && 13 <= Width(g) {
      assert ReadColumn(0) && ReadColumn(4) && ReadColumn(8) && ReadColumn(12);
      assert g[9][0] == h[9][0] && g[9][4] == h[9][4] && g[9][8] == h[9][8] && g[9][12] == h[9][12];
      assert RowTotals(g[9]) == RowTotals(h[9]);
      BodyCellsAgree(g, h, 0);
      BodyCellsAgree(g, h, 4);
      BodyCellsAgree(g, h, 8);
      BodyCellsAgree(g, h, 12);
    }
  }

  /** Well-formed parts of a report: four body columns of six cells and four totals without `': '`. */
  predicate LayoutParts(body: seq<seq<Cell>>, totals: seq<string>) {
    && |body| == 4 && (forall k :: 0 <= k < 4 ==> |body[k]| == 6)
    && |totals| == 4 && (forall k :: 0 <= k < 4 ==> SeparatorFree(totals[k]))
  }

  /** The cell at row i, column j of a report as the export lays it out; every other cell is empty. */
  function LayoutCell(summary: string, body: seq<seq<Cell>>, totals: seq<string>, i: int, j: int): Cell
    requires LayoutParts(body, totals)
  {
    if i == 0 && j == 0 then Text(summary)
    else if 3 <= i < 9 && 0 <= j < 13 && j % 4 == 0 then body[j / 4][i - 3]
    else if i == 9 && 0 <= j < 13 && j % 4 == 0 then Text("Total: " + totals[j / 4])
    else Missing
  }

  /** A ten-row, thirteen-column report with the summary, the body cells and the totals in place. */
  function Layout(summary: string, body: seq<seq<Cell>>, totals: seq<string>): (g: Grid)
    requires LayoutParts(body, totals)
    ensures Rectangular(g) && |g| == 10 && Width(g) == 13
  {
    seq(10, i requires 0 <= i < 10 => seq(13, j requires 0 <= j < 13 => LayoutCell(summary, body, totals, i, j)))
  }

  /**
   * Round trip: a report laid out as the export lays it out is read back into the
   * card of its summary, its four body columns with missing cells blank, and its
   * totals, the sales total appearing under both of the first two columns.
   */
  lemma {:induction false} ReadLayout(summary: string, body: seq<seq<Cell>>, totals: seq<string>)
    requires LayoutParts(body, totals)
    ensures Transform(Layout(summary, body, totals)) == Table(Report(
      Card(Totals(summary)) + ["Total sales: " + totals[0]],
      Fills(body[0]) + ["Total sales: " + totals[0]],
      Fills(body[1]) + ["Total declined: " + totals[1]],
      Fills(body[2]) + ["Total credit: " + totals[2]],
      Fills(body[3]) + ["Total net: " + totals[3]]))
  {
    var g := Layout(summary, body, totals);
    LayoutColumn(summary, body, totals, 0);
    LayoutColumn(summary, body, totals, 1);
    LayoutColumn(summary, body, totals, 2);
    LayoutColumn(summary, body, totals, 3);
    assert g[0][0] == Text(summary);
    RowOfTotals(g[9], totals);
    TableOf(g, summary, body, totals);
  }

  /** A row whose four total cells each split into their total yields those totals. */
  lemma {:induction false} RowOfTotals(row: seq<Cell>, totals: seq<string>)
    requires 13 <= |row| && |totals| == 4
    requires TotalOf(row[0]) == Ok(totals[0]) && TotalOf(row[4]) == Ok(totals[1])
    requires TotalOf(row[8]) == Ok(totals[2]) && TotalOf(row[12]) == Ok(totals[3])
    ensures RowTotals(row) == Ok(totals)
  {
    assert totals == [totals[0], totals[1], totals[2], totals[3]];
  }

  /** The table a reshape that succeeds produces, in terms of the cells it reads. */
  lemma {:induction false} TableOf(g: Grid, summary: string, body: seq<seq<Cell>>, totals: seq<string>)
    requires Rectangular(g) && 10 <= |g| && 13 <= Width(g) && g[0][0] == Text(summary)
    requires |body| == 4 && RowTotals(g[9]) == Ok(totals)
    requires BodyCells(g, 0) == body[0] && BodyCells(g, 4) == body[1]
    requires BodyCells(g, 8) == body[2] && BodyCells(g, 12) == body[3]
    ensures Transform(g) == Table(Report(
      Card(Totals(summary)) + ["Total sales: " + totals[0]],
      Fills(body[0]) + ["Total sales: " + totals[0]],
      Fills(body[1]) + ["Total declined: " + totals[1]],
      Fills(body[2]) + ["Total credit: " + totals[2]],
      Fills(body[3]) + ["Total net: " + totals[3]]))
  {
  }

  /** Column k of the layout holds the k-th body column in rows 3 to 8 and the k-th total in row 9. */
  lemma {:induction false} LayoutColumn(summary: string, body: seq<seq<Cell>>, totals: seq<string>, k: int)
    requires LayoutParts(body, totals) && 0 <= k < 4
    ensures BodyCells(Layout(summary, body, totals), SummaryColumn(k)) == body[k]
    ensures TotalOf(Layout(summary, body, totals)[9][SummaryColumn(k)]) == Ok(totals[k])
  {
    var g := Layout(summary, body, totals);
    var c := SummaryColumn(k);
    assert c % 4 == 0 && c / 4 == k;
    assert forall i :: 0 <= i < 6 ==> BodyCells(g, c)[i] == g[3 + i][c] == body[k][i];
    var tag := "Total";
    assert SeparatorFree(tag);
    assert g[9][c] == Text(tag + ": " + totals[k]);
    SplitLabelled(tag, totals[k]);
  }
}
