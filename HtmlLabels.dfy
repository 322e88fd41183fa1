/** The HTML label pipeline of `app.py`: normalise the delivery date, check that the
    eight required columns are present, cut the sheet to them and drop the rows that
    are wholly empty, then lay the labels out 14 to an A4 page (2 columns by 7 rows),
    padding the last page with blank label blocks. */
module HtmlLabels {
  import opened Wrappers
  import opened Dates
  import opened Frames
  import opened Seqs
  import opened Grid

  /** The required columns, in the order the filtered table keeps them. */
  const NeededCols: seq<string> :=
    ["完成", "合同序号*", "计划号", "送达仓库", "材料货号*", "物料名称", "采购数量*", "交货日期"]

  const DateCol: string := "交货日期"

  /** Label blocks per page: 2 across, 7 down. */
  const LabelsPerPage: nat := 14

  const Supplier: string := "供应商：横店华达彩印"

  /** Captions of a label's fields in reading order, and the column each one shows. */
  const Captions: seq<string> :=
    ["合同编号", "序号", "计划号", "采购数量", "送达仓库", "材料货号", "物料名称", "交货日期"]
  const FieldCols: seq<string> :=
    ["完成", "合同序号*", "计划号", "采购数量*", "送达仓库", "材料货号*", "物料名称", "交货日期"]

  datatype Error =
    | SchemaMismatch      // a required column is absent: the error message branch
    | DateParseFailure    // a delivery date the date parser rejects: the exception branch

  /** What `to_datetime` makes of one cell text: a day, the missing timestamp `NaT`
      (a text such as `NaT`), or nothing it can read, which raises. */
  datatype Reading = At(date: CalendarDate) | NaT | Unreadable

  /** A date parser: the spreadsheet library's `to_datetime` for one cell text. */
  type DateParser = string -> Reading

  /** A text cell that the parser reads as the missing timestamp. */
  predicate NaTText(c: Cell, parse: DateParser)
  {
    c.Present? && c.value.Text? && parse(c.value.s).NaT?
  }

  // ---- date normalisation -------------------------------------------------

  /** One delivery-date cell after `to_datetime(...).dt.strftime('%Y-%m-%d')`:
      `NaT` formats to a missing value. */
  function NormalizeCell(c: Cell, parse: DateParser): (r: Option<Cell>)
    ensures r.None? <==> c.Present? && c.value.Text? && parse(c.value.s).Unreadable?
    ensures r.Some? ==> (r.value.Missing? <==> c.Missing? || NaTText(c, parse))
    ensures r.Some? && r.value.Present? ==> r.value.value.Text? && ParseIso(r.value.value.s).Some?
    ensures c.Present? && c.value.Day? ==> r == Some(Present(Text(FormatDate(c.value.date))))
    ensures c.Present? && c.value.Text? && parse(c.value.s).At? ==>
      r == Some(Present(Text(FormatDate(parse(c.value.s).date))))
  {
    match c
    case Missing => Some(Missing)
    case Present(Day(d)) =>
      ParseFormat(d);
      Some(Present(Text(FormatDate(d))))
    case Present(Text(s)) =>
      match parse(s)
      case Unreadable => None
      case NaT => Some(Missing)
      case At(d) =>
        ParseFormat(d);
        Some(Present(Text(FormatDate(d))))
  }

  /** A delivery date typed as `2024/5/1` is printed as `2024-05-01`. */
  lemma SlashDateNormalized(parse: DateParser)
    requires parse("2024/5/1") == At(Date(2024, 5, 1))
    ensures NormalizeCell(Present(Text("2024/5/1")), parse) == Some(Present(Text("2024-05-01")))
  {
    FormatMayDay2024();
  }

  predicate DatesParse(rows: seq<Row>, parse: DateParser)
  {
    forall i :: 0 <= i < |rows| ==> NormalizeCell(Get(rows[i], DateCol), parse).Some?
  }

  /** The delivery-date column of every row normalised; fails if any cell fails. */
  function NormalizeDates(rows: seq<Row>, parse: DateParser): (r: Option<seq<Row>>)
    ensures r.Some? <==> DatesParse(rows, parse)
    ensures r.Some? ==> |r.value| == |rows|
    ensures r.Some? ==> forall i, col :: 0 <= i < |rows| ==>
      Get(r.value[i], col)
        == if col == DateCol then NormalizeCell(Get(rows[i], DateCol), parse).value
           else Get(rows[i], col)
    decreases |rows|
  {
    if rows == [] then Some([])
    else
      var init, last := rows[..|rows| - 1], rows[|rows| - 1];
      match (NormalizeDates(init, parse), NormalizeCell(Get(last, DateCol), parse))
      case (Some(rs), Some(c)) =>
        assert forall i :: 0 <= i < |init| ==> init[i] == rows[i];
        Some(rs + [last[DateCol := c]])
      case (None, _) =>
        assert forall i :: 0 <= i < |init| ==> init[i] == rows[i];
        None
      case (_, None) => None
  }

  /** Lines 21-22: the date column is normalised only when the sheet has one. */
  function NormalizeFrame(df: Frame, parse: DateParser): (r: Result<Frame, Error>)
    ensures r.Ok? ==> r.value.columns == df.columns && |r.value.rows| == |df.rows|
    ensures r.Err? <==> DateCol in df.columns && !DatesParse(df.rows, parse)
    ensures r.Ok? ==> r.value.rows == if DateCol in df.columns then NormalizeDates(df.rows, parse).value else df.rows
  {
    if DateCol in df.columns then
      match NormalizeDates(df.rows, parse)
      case None => Err(DateParseFailure)
      case Some(rs) => Ok(Frame(df.columns, rs))
    else Ok(df)
  }

  // ---- column check and empty-row filter ----------------------------------

  /** Line 25: every required column is among the sheet's columns. */
  predicate HasColumns(cols: seq<string>): (b: bool)
    ensures b <==> forall c :: c in NeededCols ==> c in cols
  {
    forall i :: 0 <= i < |NeededCols| ==> NeededCols[i] in cols
  }

  /** `df[needed_cols]` for one row: exactly the required columns. */
  function Project(row: Row): (r: Row)
    ensures forall c :: c in r <==> c in NeededCols
    ensures forall c :: c in NeededCols ==> r[c] == Get(row, c)
  {
    map c | c in NeededCols :: Get(row, c)
  }

  function ProjectAll(rows: seq<Row>): (r: seq<Row>)
    ensures |r| == |rows| && forall i :: 0 <= i < |rows| ==> r[i] == Project(rows[i])
  {
    seq(|rows|, i requires 0 <= i < |rows| => Project(rows[i]))
  }

  /** `dropna(how='all')` keeps a row when at least one required value is present. */
  predicate AnyPresent(row: Row): (b: bool)
    ensures b <==> exists i :: 0 <= i < |NeededCols| && NeededCols[i] in row && row[NeededCols[i]].Present?
  {
    exists i :: 0 <= i < |NeededCols| && Get(row, NeededCols[i]).Present?
  }

  /** Lines 19-26: the filtered table, or the error that stops the run. The date
      step comes first, so an unparseable date is reported even when a column is
      also missing. */
  function Prepare(df: Frame, parse: DateParser): (r: Result<Frame, Error>)
    ensures r.Ok? <==> HasColumns(df.columns) && DatesParse(df.rows, parse)
    ensures r == Err(DateParseFailure) <==> DateCol in df.columns && !DatesParse(df.rows, parse)
    ensures !HasColumns(df.columns) ==> r.Err?
    ensures r.Ok? ==> r.value.columns == NeededCols && |r.value.rows| <= |df.rows|
  {
    assert HasColumns(df.columns) ==> DateCol in df.columns by {
      assert NeededCols[7] == DateCol;
    }
    match NormalizeFrame(df, parse)
    case Err(e) => Err(e)
    case Ok(nf) =>
      if HasColumns(nf.columns) then Ok(Frame(NeededCols, Filter(ProjectAll(nf.rows), AnyPresent)))
      else Err(SchemaMismatch)
  }

  /** An upload without the plan-number column yields no table and no pages. */
  lemma PlanColumnMissing(df: Frame, parse: DateParser)
    requires "计划号" !in df.columns
    ensures Prepare(df, parse).Err?
  {
    assert NeededCols[2] == "计划号";
  }

  /** The rows of the normalised sheet (before the column cut). */
  function NormalizedRows(df: Frame, parse: DateParser): seq<Row>
    requires Prepare(df, parse).Ok?
  {
    NormalizeFrame(df, parse).value.rows
  }

  /** The positions of the sheet rows that the filter keeps. */
  function KeptRows(df: Frame, parse: DateParser): seq<nat>
    requires Prepare(df, parse).Ok?
  {
    KeptIndices(ProjectAll(NormalizedRows(df, parse)), AnyPresent)
  }

  lemma AnyPresentProject(row: Row)
    ensures AnyPresent(Project(row)) <==> AnyPresent(row)
  {
    if AnyPresent(row) {
      var i :| 0 <= i < |NeededCols| && Get(row, NeededCols[i]).Present?;
      assert Get(Project(row), NeededCols[i]).Present?;
    }
  }

  /** The cell of `row` in column `col` is still present once the date is normalised:
      it is present, and it is not a delivery date the parser reads as `NaT`. */
  predicate PresentAfter(row: Row, col: string, parse: DateParser)
  {
    Get(row, col).Present? && (col == DateCol ==> !NaTText(Get(row, col), parse))
  }

  /** The uploaded row still has a required value after date normalisation. */
  predicate KeepsValue(row: Row, parse: DateParser)
  {
    exists i :: 0 <= i < |NeededCols| && PresentAfter(row, NeededCols[i], parse)
  }

  /** Without a `NaT` text for a date, a row keeps a value exactly when it has one. */
  lemma KeepsValueWithoutNaT(row: Row, parse: DateParser)
    requires !NaTText(Get(row, DateCol), parse)
    ensures KeepsValue(row, parse) <==> AnyPresent(row)
  {
    if AnyPresent(row) {
      var i :| 0 <= i < |NeededCols| && Get(row, NeededCols[i]).Present?;
      assert PresentAfter(row, NeededCols[i], parse);
    }
  }

  /** Normalising the date keeps every cell's presence, except that a date text the
      parser reads as `NaT` becomes missing. */
  lemma AnyPresentNormalized(df: Frame, parse: DateParser, j: nat)
    requires Prepare(df, parse).Ok? && j < |df.rows|
    ensures AnyPresent(NormalizedRows(df, parse)[j]) <==> KeepsValue(df.rows[j], parse)
  {
    var a, b := df.rows[j], NormalizedRows(df, parse)[j];
    assert DateCol in df.columns by { assert NeededCols[7] == DateCol; }
    forall c
      ensures Get(b, c).Present? <==> PresentAfter(a, c, parse)
    {
      if c == DateCol {
        assert Get(b, c) == NormalizeCell(Get(a, DateCol), parse).value;
      }
    }
    if AnyPresent(b) {
      var i :| 0 <= i < |NeededCols| && Get(b, NeededCols[i]).Present?;
      assert PresentAfter(a, NeededCols[i], parse);
    }
    if KeepsValue(a, parse) {
      var i :| 0 <= i < |NeededCols| && PresentAfter(a, NeededCols[i], parse);
      assert Get(b, NeededCols[i]).Present?;
    }
  }

  /** The filtered rows are the sheet's rows at increasing positions, and a position
      is kept exactly when one of its eight required values is still present after
      date normalisation: no kept row is wholly empty, no dropped row has a value, and
      the order is the sheet's. */
  lemma PreparedRows(df: Frame, parse: DateParser)
    requires Prepare(df, parse).Ok?
    ensures var f, idx := Prepare(df, parse).value, KeptRows(df, parse);
      && |f.rows| == |idx|
      && StrictlyIncreasing(idx)
      && (forall k :: 0 <= k < |idx| ==> idx[k] < |df.rows|)
      && (forall j :: 0 <= j < |df.rows| ==> (KeepsValue(df.rows[j], parse) <==> j in idx))
  {
    var norm := NormalizedRows(df, parse);
    var projected := ProjectAll(norm);
    FilterSpec(projected, AnyPresent);
    forall j | 0 <= j < |df.rows|
      ensures KeepsValue(df.rows[j], parse) <==> AnyPresent(projected[j])
    {
      AnyPresentProject(norm[j]);
      AnyPresentNormalized(df, parse, j);
    }
  }

  /** A row whose only value is a delivery date typed as `NaT` is dropped: the date
      formats to a missing value, and the row is then wholly empty. */
  lemma NaTOnlyRowDropped(parse: DateParser)
    requires parse("NaT") == NaT
    ensures Prepare(Frame(NeededCols, [map[DateCol := Present(Text("NaT"))]]), parse)
         == Ok(Frame(NeededCols, []))
  {
    var row: Row := map[DateCol := Present(Text("NaT"))];
    var df := Frame(NeededCols, [row]);
    assert NeededCols[7] == DateCol;
    assert !KeepsValue(row, parse);
    assert DatesParse(df.rows, parse);
    PreparedRows(df, parse);
    assert KeptRows(df, parse) == [];
  }

  /** Every cell of a filtered row is the uploaded cell of the row it came from,
      except the delivery date, which is that cell normalised. */
  lemma PreparedCells(df: Frame, parse: DateParser, k: nat, c: string)
    requires Prepare(df, parse).Ok? && k < |KeptRows(df, parse)| && c in NeededCols
    ensures var f, j := Prepare(df, parse).value, KeptRows(df, parse)[k];
      && j < |df.rows| && k < |f.rows| && c in f.rows[k]
      && f.rows[k][c] == if c == DateCol then NormalizeCell(Get(df.rows[j], DateCol), parse).value
                         else Get(df.rows[j], c)
  {
    var norm := NormalizedRows(df, parse);
    FilterSpec(ProjectAll(norm), AnyPresent);
  }

  // ---- idempotence --------------------------------------------------------

  /** The date parser reads each canonical `YYYY-MM-DD` text as that date. */
  ghost predicate AcceptsIso(parse: DateParser)
  {
    forall d: CalendarDate :: parse(FormatDate(d)) == At(d)
  }

  /** A row as the filter leaves it: exactly the required columns, at least one of
      them present, and the delivery date either missing or canonical text. */
  ghost predicate Prepared(row: Row)
  {
    && (forall c :: c in row <==> c in NeededCols)
    && (exists i :: 0 <= i < |NeededCols| && Get(row, NeededCols[i]).Present?)
    && (Get(row, DateCol).Present? ==>
          Get(row, DateCol).value.Text? && ParseIso(Get(row, DateCol).value.s).Some?)
  }

  lemma PreparedRowsArePrepared(df: Frame, parse: DateParser)
    requires Prepare(df, parse).Ok?
    ensures forall k :: 0 <= k < |Prepare(df, parse).value.rows| ==> Prepared(Prepare(df, parse).value.rows[k])
  {
    var norm := NormalizedRows(df, parse);
    var projected := ProjectAll(norm);
    var rows := Prepare(df, parse).value.rows;
    FilterSpec(projected, AnyPresent);
    var idx := KeptIndices(projected, AnyPresent);
    forall k | 0 <= k < |rows|
      ensures Prepared(rows[k])
    {
      var j := idx[k];
      assert rows[k] == Project(norm[j]);
      assert AnyPresent(projected[j]);
      assert Get(rows[k], DateCol) == NormalizeCell(Get(df.rows[j], DateCol), parse).value;
    }
  }

  /** A prepared row passes through normalisation and the column cut unchanged. */
  lemma PreparedRowFixed(row: Row, parse: DateParser)
    requires AcceptsIso(parse) && Prepared(row)
    ensures NormalizeCell(Get(row, DateCol), parse) == Some(Get(row, DateCol))
    ensures row[DateCol := Get(row, DateCol)] == row
    ensures Project(row) == row
  {
    var c := Get(row, DateCol);
    if c.Present? {
      var s := c.value.s;
      FormatParse(s);
      assert parse(FormatDate(ParseIso(s).value)) == At(ParseIso(s).value);
    }
    assert DateCol in NeededCols;
  }

  lemma ProjectByGet(a: Row, b: Row)
    requires forall c :: Get(a, c) == Get(b, c)
    ensures Project(a) == Project(b)
  {
  }

  /** The delivery dates of prepared rows all parse again. */
  lemma PreparedDatesParse(rows: seq<Row>, parse: DateParser)
    requires AcceptsIso(parse)
    requires forall k :: 0 <= k < |rows| ==> Prepared(rows[k])
    ensures DatesParse(rows, parse)
  {
    forall k | 0 <= k < |rows|
      ensures NormalizeCell(Get(rows[k], DateCol), parse).Some?
    {
      PreparedRowFixed(rows[k], parse);
    }
  }

  /** One prepared row after normalisation and the column cut. */
  lemma ReprepareRow(rows: seq<Row>, parse: DateParser, k: nat)
    requires AcceptsIso(parse)
    requires forall k :: 0 <= k < |rows| ==> Prepared(rows[k])
    requires k < |rows|
    ensures DatesParse(rows, parse)
    ensures |NormalizeDates(rows, parse).value| == |rows|
    ensures Project(NormalizeDates(rows, parse).value[k]) == rows[k]
  {
    PreparedDatesParse(rows, parse);
    var norm := NormalizeDates(rows, parse).value;
    PreparedRowFixed(rows[k], parse);
    assert forall c :: Get(norm[k], c) == Get(rows[k], c);
    ProjectByGet(norm[k], rows[k]);
  }

  /** Prepared rows come back from normalisation and the column cut as they were. */
  lemma ReprepareRows(rows: seq<Row>, parse: DateParser)
    requires AcceptsIso(parse)
    requires forall k :: 0 <= k < |rows| ==> Prepared(rows[k])
    ensures DatesParse(rows, parse)
    ensures ProjectAll(NormalizeDates(rows, parse).value) == rows
  {
    ReprepareEach(rows, parse);
    ProjectAllBack(NormalizeDates(rows, parse).value, rows);
  }

  /** Every prepared row, one by one, comes back from normalisation and the cut. */
  lemma ReprepareEach(rows: seq<Row>, parse: DateParser)
    requires AcceptsIso(parse)
    requires forall k :: 0 <= k < |rows| ==> Prepared(rows[k])
    ensures DatesParse(rows, parse)
    ensures |NormalizeDates(rows, parse).value| == |rows|
    ensures forall k :: 0 <= k < |rows| ==> Project(NormalizeDates(rows, parse).value[k]) == rows[k]
  {
    PreparedDatesParse(rows, parse);
    forall k | 0 <= k < |rows|
      ensures Project(NormalizeDates(rows, parse).value[k]) == rows[k]
    {
      ReprepareRow(rows, parse, k);
    }
  }

  /** Rows each of which projects back onto its counterpart project back as a whole. */
  lemma ProjectAllBack(norm: seq<Row>, rows: seq<Row>)
    requires |norm| == |rows| && forall k :: 0 <= k < |rows| ==> Project(norm[k]) == rows[k]
    ensures ProjectAll(norm) == rows
  {
  }

  /** A frame of prepared rows over exactly the required columns is its own
      preparation. */
  lemma PreparedFrameFixed(f: Frame, parse: DateParser)
    requires AcceptsIso(parse) && f.columns == NeededCols
    requires forall k :: 0 <= k < |f.rows| ==> Prepared(f.rows[k])
    ensures Prepare(f, parse) == Ok(f)
  {
    ReprepareRows(f.rows, parse);
    var norm := NormalizeDates(f.rows, parse).value;
    assert HasColumns(NeededCols);
    assert NormalizeFrame(f, parse) == Ok(Frame(NeededCols, norm));
    assert forall k :: 0 <= k < |f.rows| ==> AnyPresent(f.rows[k]);
    FilterAllKept(f.rows, AnyPresent);
  }

  /** Running the preparation again on its own output changes nothing: no further row
      is dropped and the normalised dates stay as they are. */
  lemma PrepareIdempotent(df: Frame, parse: DateParser)
    requires AcceptsIso(parse) && Prepare(df, parse).Ok?
    ensures Prepare(Prepare(df, parse).value, parse) == Prepare(df, parse)
  {
    PreparedRowsArePrepared(df, parse);
    PreparedFrameFixed(Prepare(df, parse).value, parse);
  }

  // ---- one label -----------------------------------------------------------

  /** A label block: its lines, each a sequence of text items. */
  type Label = seq<seq<string>>

  /** The eight captioned field lines of a label (lines 123-146), in reading order:
      line `i` reads back as column `FieldCols[i]` as it prints. */
  function HtmlFields(row: Row): (fs: seq<string>)
    ensures |fs| == 8
  {
    seq(8, i requires 0 <= i < 8 => FieldText(Captions[i], Show(Get(row, FieldCols[i]))))
  }

  lemma HtmlFieldsRead(row: Row)
    ensures forall i :: 0 <= i < 8 ==> FieldValue(Captions[i], HtmlFields(row)[i]) == Some(Show(Get(row, FieldCols[i])))
  {
    forall i | 0 <= i < 8
      ensures FieldValue(Captions[i], HtmlFields(row)[i]) == Some(Show(Get(row, FieldCols[i])))
    {
      FieldTextReads(Captions[i], Show(Get(row, FieldCols[i])));
    }
  }

  /** The block's layout: contract number; sequence, plan and quantity side by side;
      warehouse and material code; material name; delivery date; supplier. */
  function Arrange(fs: seq<string>): Label
    requires |fs| == 8
  {
    [[fs[0]], [fs[1], fs[2], fs[3]], [fs[4], fs[5]], [fs[6]], [fs[7]], [Supplier]]
  }

  /** Lines 121-149: one label block, as its lines of text. */
  function HtmlLabel(row: Row): (lines: Label)
    ensures Flatten(lines) == HtmlFields(row) + [Supplier]
  {
    ArrangeInOrder(HtmlFields(row));
    Arrange(HtmlFields(row))
  }

  /** Read in order, the layout is the field lines followed by the supplier. */
  lemma ArrangeInOrder(fs: seq<string>)
    requires |fs| == 8
    ensures Flatten(Arrange(fs)) == fs + [Supplier]
  {
    var lines := Arrange(fs);
    FlattenSix(lines[0], lines[1], lines[2], lines[3], lines[4], lines[5]);
    assert fs == [fs[0], fs[1], fs[2], fs[3], fs[4], fs[5], fs[6], fs[7]];
  }

  /** A label has six lines of 1, 3, 2, 1, 1 and 1 items; read in order, its first
      eight items are the captioned values of the eight columns and the last is the
      supplier. */
  lemma HtmlLabelLines(row: Row)
    ensures var lines := HtmlLabel(row);
      && |lines| == 6
      && |lines[0]| == 1 && |lines[1]| == 3 && |lines[2]| == 2
      && |lines[3]| == 1 && |lines[4]| == 1 && |lines[5]| == 1
      && lines[5][0] == Supplier
    ensures var flat := Flatten(HtmlLabel(row));
      && |flat| == 9 && flat[8] == Supplier
      && forall i :: 0 <= i < 8 ==> FieldValue(Captions[i], flat[i]) == Some(Show(Get(row, FieldCols[i])))
  {
    var fs := HtmlFields(row);
    HtmlFieldsRead(row);
    ArrangeInOrder(fs);
    var flat := Flatten(HtmlLabel(row));
    assert forall i :: 0 <= i < 8 ==> flat[i] == fs[i];
  }

  /** A label shows every required column exactly once. */
  lemma FieldColsCoverNeeded()
    ensures multiset(FieldCols) == multiset(NeededCols)
  {
    var a, b, c, d := NeededCols[..3], NeededCols[3..6], [NeededCols[6]], [NeededCols[7]];
    assert FieldCols == a + c + b + d;
    assert NeededCols == a + b + c + d;
    SwapBlocks(a, b, c, d);
  }

  /** Two rows print the same eight values. */
  predicate SameShown(r1: Row, r2: Row)
  {
    forall i :: 0 <= i < 8 ==> Show(Get(r1, FieldCols[i])) == Show(Get(r2, FieldCols[i]))
  }

  /** Two rows give the same label exactly when they show the same eight values,
      so the label loses nothing of what it prints. */
  lemma HtmlLabelInjective(r1: Row, r2: Row)
    ensures HtmlLabel(r1) == HtmlLabel(r2) <==> SameShown(r1, r2)
  {
    var f1, f2 := HtmlFields(r1), HtmlFields(r2);
    ArrangeInOrder(f1);
    ArrangeInOrder(f2);
    if HtmlLabel(r1) == HtmlLabel(r2) {
      assert f1 + [Supplier] == f2 + [Supplier];
      assert f1 == (f1 + [Supplier])[..8];
      assert f2 == (f2 + [Supplier])[..8];
      HtmlFieldsRead(r1);
      HtmlFieldsRead(r2);
    }
    if SameShown(r1, r2) {
      assert f1 == f2;
    }
  }

  // ---- pagination ---------------------------------------------------------

  function LabelsOf(rows: seq<Row>): (ls: seq<Label>)
    ensures |ls| == |rows| && forall i :: 0 <= i < |rows| ==> ls[i] == HtmlLabel(rows[i])
  {
    seq(|rows|, i requires 0 <= i < |rows| => HtmlLabel(rows[i]))
  }

  /** The slots of the first `page` pages in reading order. */
  ghost function PagesSoFar(labels: seq<Label>, page: nat): seq<Slot<Label>>
  {
    var upTo := Min(page * LabelsPerPage, |labels|);
    Fills(labels[..upTo]) + Blanks(page * LabelsPerPage - upTo)
  }

  /** One turn of the page loop: the page of slice `[start, end)` and its blanks
      extends the pages so far by exactly the labels of that slice. */
  lemma PageStep(labels: seq<Label>, page: nat, pages: seq<seq<Slot<Label>>>, current: seq<Slot<Label>>)
    requires page * LabelsPerPage < |labels|
    requires Flatten(pages) == PagesSoFar(labels, page)
    requires var start, end := page * LabelsPerPage, Min((page + 1) * LabelsPerPage, |labels|);
      current == Fills(labels[start..end]) + Blanks(LabelsPerPage - (end - start))
    ensures Flatten(pages + [current]) == PagesSoFar(labels, page + 1)
  {
    var start, end := page * LabelsPerPage, Min((page + 1) * LabelsPerPage, |labels|);
    var pad := LabelsPerPage - (end - start);
    assert (page + 1) * LabelsPerPage - end == pad;
    assert Blanks<Label>(0) == [];
    assert Flatten(pages) == Fills(labels[..start]);
    FlattenAppend(pages, current);
    FillsAppend(labels[..start], labels[start..end]);
    assert labels[..start] + labels[start..end] == labels[..end];
    assert Flatten(pages + [current]) == Fills(labels[..end]) + Blanks(pad);
  }

  /** Lines 119-153, the body of the page loop: one label block per row of the slice
      `[startIdx, endIdx)`, in order, then blank blocks up to 14. */
  method LayOutPage(rows: seq<Row>, startIdx: nat, endIdx: nat) returns (page: seq<Slot<Label>>)
    requires startIdx <= endIdx <= |rows| && endIdx - startIdx <= LabelsPerPage
    ensures page == Fills(LabelsOf(rows)[startIdx..endIdx]) + Blanks(LabelsPerPage - (endIdx - startIdx))
  {
    ghost var labels := LabelsOf(rows);
    page := [];
    for idx := startIdx to endIdx
      invariant page == Fills(labels[startIdx..idx])
    {
      FillsExtend(labels, startIdx, idx);
      page := page + [Filled(HtmlLabel(rows[idx]))];
    }
    for blank := endIdx - startIdx to LabelsPerPage
      invariant page == Fills(labels[startIdx..endIdx]) + Blanks(blank - (endIdx - startIdx))
    {
      BlanksExtend(Fills(labels[startIdx..endIdx]), blank - (endIdx - startIdx));
      page := page + [Blank];
    }
  }

  /** Lines 110-155, `generate_html_labels`: for each of the `ceil(n/14)` pages, a
      label per row of the page's slice, then blank blocks up to 14. The result is
      the chunking of the rows' labels into pages of 14, so every property proved of
      `Chunks` holds of it. */
  method GenerateHtmlLabels(rows: seq<Row>) returns (pages: seq<seq<Slot<Label>>>)
    ensures pages == Chunks(LabelsOf(rows), LabelsPerPage)
    ensures |pages| == (|rows| + LabelsPerPage - 1) / LabelsPerPage
    ensures forall p :: 0 <= p < |pages| ==> |pages[p]| == LabelsPerPage
    ensures FilledItems(Flatten(pages)) == LabelsOf(rows)
  {
    ghost var labels := LabelsOf(rows);
    var n := |rows|;
    var totalPages := (n + LabelsPerPage - 1) / LabelsPerPage;
    pages := [];
    for page := 0 to totalPages
      invariant |pages| == page
      invariant forall p :: 0 <= p < page ==> |pages[p]| == LabelsPerPage
      invariant Flatten(pages) == PagesSoFar(labels, page)
    {
      CeilDivBound(page, n, LabelsPerPage);
      var startIdx := page * LabelsPerPage;
      var endIdx := Min((page + 1) * LabelsPerPage, n);
      var current := LayOutPage(rows, startIdx, endIdx);
      PageStep(labels, page, pages, current);
      UniformAppend(pages, current, LabelsPerPage);
      pages := pages + [current];
    }
    AllPagesAreChunks(labels, pages);
  }

  /** After the last page, the pages are the chunking of the labels. */
  lemma AllPagesAreChunks(labels: seq<Label>, pages: seq<seq<Slot<Label>>>)
    requires |pages| == CeilDiv(|labels|, LabelsPerPage)
    requires forall p :: 0 <= p < |pages| ==> |pages[p]| == LabelsPerPage
    requires Flatten(pages) == PagesSoFar(labels, |pages|)
    ensures pages == Chunks(labels, LabelsPerPage)
    ensures FilledItems(Flatten(pages)) == labels
  {
    var n, total := |labels|, |pages|;
    CeilDivBound(total, n, LabelsPerPage);
    assert labels[..n] == labels;
    ChunksCharacterized(pages, labels, LabelsPerPage, total * LabelsPerPage - n);
    ChunksRoundTrip(labels, LabelsPerPage);
  }

  /** Lines 16-175: the whole page sequence, or the error branch with no labels. */
  method HtmlDocument(df: Frame, parse: DateParser) returns (r: Result<seq<seq<Slot<Label>>>, Error>)
    ensures r.Err? <==> Prepare(df, parse).Err?
    ensures r.Err? ==> r.error == Prepare(df, parse).error
    ensures !HasColumns(df.columns) ==> r.Err?
    ensures r.Ok? ==> r.value == Chunks(LabelsOf(Prepare(df, parse).value.rows), LabelsPerPage)
  {
    var prepared := Prepare(df, parse);
    match prepared
    case Err(e) =>
      r := Err(e);
    case Ok(filtered) =>
      var pages := GenerateHtmlLabels(filtered.rows);
      r := Ok(pages);
  }

  /** Fifteen items fourteen to a page: a full page, then one item and thirteen blanks. */
  lemma FifteenByFourteen<T>(items: seq<T>)
    requires |items| == 15
    ensures var pages := Chunks(items, 14);
      && |pages| == 2
      && pages[0] == Fills(items[..14])
      && pages[1] == [Filled(items[14])] + Blanks(13)
  {
    var pages := Chunks(items, 14);
    assert |pages| == 2;
    FullRowsBeforeLast(items, 14, 0);
    LastRowPadded(items, 14);
    assert items[14..] == [items[14]];
    assert Fills(items[14..]) == [Filled(items[14])];
    assert PadCount(15, 14) == 13;
  }

  /** Fifteen rows make two pages: fourteen labels, then one label and thirteen blanks. */
  lemma FifteenRowsTwoPages(rows: seq<Row>)
    requires |rows| == 15
    ensures var pages := Chunks(LabelsOf(rows), LabelsPerPage);
      && |pages| == 2
      && pages[0] == Fills(LabelsOf(rows)[..14])
      && pages[1] == [Filled(HtmlLabel(rows[14]))] + Blanks(13)
  {
    FifteenByFourteen(LabelsOf(rows));
  }
}
