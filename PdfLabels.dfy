/** The PDF label pipeline of `app_version2.py`: keep the rows whose contract
    sequence number is present, turn each into a seven-line label, and group the
    labels in order into table rows of `labels_per_row` cells (1 to 3), padding the
    last row with empty cells. */
module PdfLabels {
  import opened Wrappers
  import opened Frames
  import opened Seqs
  import opened Grid

  /** The filter key: rows without a contract sequence number are skipped. */
  const KeyCol: string := "合同序号*"

  /** The columns the preview shows (line 100); a label prints each of them. */
  const NeededCols: seq<string> :=
    ["合同序号*", "计划号", "送达仓库", "材料货号*", "物料名称", "采购数量*", "交货日期"]

  /** Captions of a label's field cells in reading order; caption `i` shows
      column `NeededCols[i]`. */
  const Captions: seq<string> :=
    ["合同号", "计划号", "送达仓库", "材料货号", "物料名称", "采购数量", "交货日期"]

  const SupplierLine: string := "供应商：横店华达彩印"
  const RohsLine: string := "RoHS"

  /** A column lookup that fails (pandas `KeyError`): the run stops with no PDF. */
  datatype Error = MissingColumns(names: seq<string>)

  type Label = seq<seq<string>>

  // ---- key filter ---------------------------------------------------------

  /** The row has a contract sequence number (`notna()`). */
  predicate HasKey(row: Row): (b: bool)
    ensures b <==> KeyCol in row && row[KeyCol].Present?
  {
    Get(row, KeyCol).Present?
  }

  /** Line 103, `df[df['合同序号*'].notna()]`. */
  function KeyFilter(df: Frame): (r: Result<seq<Row>, Error>)
    ensures r.Err? <==> KeyCol !in df.columns
    ensures r.Ok? ==> |r.value| <= |df.rows| && forall k :: 0 <= k < |r.value| ==> HasKey(r.value[k])
  {
    if KeyCol !in df.columns then Err(MissingColumns([KeyCol]))
    else
      FilterSpec(df.rows, HasKey);
      Ok(Filter(df.rows, HasKey))
  }

  /** The kept rows are the sheet's rows at increasing positions, and a row is kept
      exactly when its contract sequence number is present. */
  lemma KeyFilterSpec(df: Frame)
    requires KeyCol in df.columns
    ensures var rows, idx := KeyFilter(df).value, KeptIndices(df.rows, HasKey);
      && |rows| == |idx|
      && StrictlyIncreasing(idx)
      && (forall k :: 0 <= k < |idx| ==> idx[k] < |df.rows| && rows[k] == df.rows[idx[k]])
      && (forall j :: 0 <= j < |df.rows| ==> (HasKey(df.rows[j]) <==> j in idx))
  {
    FilterSpec(df.rows, HasKey);
  }

  // ---- one label ----------------------------------------------------------

  /** The seven captioned field cells of a label (lines 13-19), in reading order:
      cell `i` reads back as column `NeededCols[i]` as it prints. */
  function PdfFields(row: Row): (fs: seq<string>)
    ensures |fs| == 7
  {
    seq(7, i requires 0 <= i < 7 => FieldText(Captions[i], Show(Get(row, NeededCols[i]))))
  }

  lemma PdfFieldsRead(row: Row)
    ensures forall i :: 0 <= i < 7 ==> FieldValue(Captions[i], PdfFields(row)[i]) == Some(Show(Get(row, NeededCols[i])))
  {
    forall i | 0 <= i < 7
      ensures FieldValue(Captions[i], PdfFields(row)[i]) == Some(Show(Get(row, NeededCols[i])))
    {
      FieldTextReads(Captions[i], Show(Get(row, NeededCols[i])));
    }
  }

  /** The label's layout: supplier; contract and plan number; warehouse; material
      code; material name; quantity and delivery date; the RoHS mark. */
  function Arrange(fs: seq<string>): Label
    requires |fs| == 7
  {
    [[SupplierLine], [fs[0], fs[1]], [fs[2]], [fs[3]], [fs[4]], [fs[5], fs[6]], [RohsLine]]
  }

  /** Lines 11-21, `create_label`: one label, as its lines of cells. */
  function CreateLabel(row: Row): (lines: Label)
    ensures Flatten(lines) == [SupplierLine] + PdfFields(row) + [RohsLine]
  {
    ArrangeInOrder(PdfFields(row));
    Arrange(PdfFields(row))
  }

  /** Read in order, the layout is the supplier, the field cells, then the RoHS mark. */
  lemma ArrangeInOrder(fs: seq<string>)
    requires |fs| == 7
    ensures Flatten(Arrange(fs)) == [SupplierLine] + fs + [RohsLine]
  {
    var lines := Arrange(fs);
    FlattenSeven(lines[0], lines[1], lines[2], lines[3], lines[4], lines[5], lines[6]);
    assert fs == [fs[0], fs[1], fs[2], fs[3], fs[4], fs[5], fs[6]];
  }

  /** A label has seven lines, the second and sixth of two cells and the others of
      one; read in order, it is the supplier, the captioned values of the seven
      columns, and the RoHS mark. */
  lemma CreateLabelLines(row: Row)
    ensures var lines := CreateLabel(row);
      && |lines| == 7
      && |lines[1]| == 2 && |lines[5]| == 2
      && (forall i :: 0 <= i < 7 && i != 1 && i != 5 ==> |lines[i]| == 1)
      && lines[0] == [SupplierLine] && lines[6] == [RohsLine]
    ensures var flat := Flatten(CreateLabel(row));
      && |flat| == 9 && flat[0] == SupplierLine && flat[8] == RohsLine
      && forall i :: 0 <= i < 7 ==> FieldValue(Captions[i], flat[i + 1]) == Some(Show(Get(row, NeededCols[i])))
  {
    var fs := PdfFields(row);
    PdfFieldsRead(row);
    ArrangeInOrder(fs);
    var flat := Flatten(CreateLabel(row));
    assert forall i :: 0 <= i < 7 ==> flat[i + 1] == fs[i];
  }

  /** Two rows print the same seven values. */
  predicate SameShown(r1: Row, r2: Row)
  {
    forall i :: 0 <= i < 7 ==> Show(Get(r1, NeededCols[i])) == Show(Get(r2, NeededCols[i]))
  }

  /** Two rows give the same label exactly when they show the same seven values. */
  lemma CreateLabelInjective(r1: Row, r2: Row)
    ensures CreateLabel(r1) == CreateLabel(r2) <==> SameShown(r1, r2)
  {
    var f1, f2 := PdfFields(r1), PdfFields(r2);
    ArrangeInOrder(f1);
    ArrangeInOrder(f2);
    if CreateLabel(r1) == CreateLabel(r2) {
      assert [SupplierLine] + f1 + [RohsLine] == [SupplierLine] + f2 + [RohsLine];
      assert f1 == ([SupplierLine] + f1 + [RohsLine])[1..8];
      assert f2 == ([SupplierLine] + f2 + [RohsLine])[1..8];
      PdfFieldsRead(r1);
      PdfFieldsRead(r2);
    }
    if SameShown(r1, r2) {
      assert f1 == f2;
    }
  }

  // ---- grouping into table rows -------------------------------------------

  function LabelsOf(rows: seq<Row>): (ls: seq<Label>)
    ensures |ls| == |rows| && forall i :: 0 <= i < |rows| ==> ls[i] == CreateLabel(rows[i])
  {
    seq(|rows|, i requires 0 <= i < |rows| => CreateLabel(rows[i]))
  }

  /** One turn of the label loop: the new label joins the current row, and a full
      row moves into the table. */
  lemma LabelStep(labels: seq<Label>, idx: nat, table: seq<seq<Slot<Label>>>, current: seq<Slot<Label>>)
    requires idx < |labels|
    requires Flatten(table) + current == Fills(labels[..idx])
    ensures Flatten(table) + (current + [Filled(labels[idx])]) == Fills(labels[..idx + 1])
    ensures Flatten(table + [current + [Filled(labels[idx])]]) == Fills(labels[..idx + 1])
  {
    assert labels[..idx + 1] == labels[..idx] + [labels[idx]];
    FillsAppend(labels[..idx], [labels[idx]]);
    FlattenAppend(table, current + [Filled(labels[idx])]);
  }

  /** Lines 37-68 of `create_pdf`: each label joins the current row, a row that
      reaches `labels_per_row` cells is flushed into the table, and a non-empty
      leftover row is padded with empty cells and flushed last. The table is the
      chunking of the labels into rows of `labels_per_row`. */
  method CreatePdfTable(rows: seq<Row>, labelsPerRow: nat) returns (allLabels: seq<seq<Slot<Label>>>)
    requires 1 <= labelsPerRow <= 3
    ensures allLabels == Chunks(LabelsOf(rows), labelsPerRow)
    ensures |allLabels| == CeilDiv(|rows|, labelsPerRow)
    ensures forall r :: 0 <= r < |allLabels| ==> |allLabels[r]| == labelsPerRow
    ensures FilledItems(Flatten(allLabels)) == LabelsOf(rows)
  {
    ghost var labels := LabelsOf(rows);
    allLabels := [];
    var currentRow: seq<Slot<Label>> := [];
    for idx := 0 to |rows|
      invariant |currentRow| < labelsPerRow
      invariant forall r :: 0 <= r < |allLabels| ==> |allLabels[r]| == labelsPerRow
      invariant Flatten(allLabels) + currentRow == Fills(labels[..idx])
    {
      var made := CreateLabel(rows[idx]);
      assert made == labels[idx];
      LabelStep(labels, idx, allLabels, currentRow);
      currentRow := currentRow + [Filled(made)];
      if |currentRow| == labelsPerRow {
        UniformAppend(allLabels, currentRow, labelsPerRow);
        allLabels := allLabels + [currentRow];
        currentRow := [];
        assert Flatten(allLabels) + currentRow == Flatten(allLabels);
      }
    }
    assert labels[..|rows|] == labels;
    ghost var table, leftover := allLabels, currentRow;
    if currentRow != [] {
      currentRow := PadRow(currentRow, labelsPerRow);
      allLabels := allLabels + [currentRow];
    }
    TableComplete(labels, labelsPerRow, table, leftover, allLabels);
  }

  /** Lines 65-67: empty placeholder cells appended until the row is full. */
  method PadRow(row: seq<Slot<Label>>, labelsPerRow: nat) returns (padded: seq<Slot<Label>>)
    requires |row| <= labelsPerRow
    ensures padded == row + Blanks(labelsPerRow - |row|)
  {
    padded := row;
    while |padded| < labelsPerRow
      invariant |row| <= |padded| <= labelsPerRow
      invariant padded == row + Blanks(|padded| - |row|)
      decreases labelsPerRow - |padded|
    {
      BlanksExtend(row, |padded| - |row|);
      padded := padded + [Blank];
    }
  }

  /** After the loop and the padding, the table is the chunking of the labels. */
  lemma TableComplete(labels: seq<Label>, k: nat, table: seq<seq<Slot<Label>>>, leftover: seq<Slot<Label>>,
                      final: seq<seq<Slot<Label>>>)
    requires 1 <= k && |leftover| < k
    requires forall r :: 0 <= r < |table| ==> |table[r]| == k
    requires Flatten(table) + leftover == Fills(labels)
    requires final == if leftover == [] then table else table + [leftover + Blanks(k - |leftover|)]
    ensures final == Chunks(labels, k)
    ensures FilledItems(Flatten(final)) == labels
  {
    var p := if leftover == [] then 0 else k - |leftover|;
    if leftover != [] {
      FlattenAppend(table, leftover + Blanks(p));
    }
    assert Flatten(final) == Fills(labels) + Blanks(p);
    ChunksCharacterized(final, labels, k, p);
    ChunksRoundTrip(labels, k);
  }

  /** The names among `names` that a table with columns `cols` lacks, in order
      (one `KeyError` lists them all). */
  function Absent(names: seq<string>, cols: seq<string>): (missing: seq<string>)
    ensures missing == [] <==> forall i :: 0 <= i < |names| ==> names[i] in cols
    ensures forall c :: c in missing ==> c in names && c !in cols
    ensures forall c :: c in names && c !in cols ==> c in missing
  {
    if names == [] then []
    else (if names[0] in cols then [] else [names[0]]) + Absent(names[1..], cols)
  }

  /** Lines 95-112 of `main`: the key filter, the preview's lookup of every needed
      column, then the table. A missing column stops the run with no table. */
  method MaterialLabels(df: Frame, labelsPerRow: nat) returns (r: Result<seq<seq<Slot<Label>>>, Error>)
    requires 1 <= labelsPerRow <= 3
    ensures r.Err? <==> exists i :: 0 <= i < |NeededCols| && NeededCols[i] !in df.columns
    ensures r.Ok? ==> r.value == Chunks(LabelsOf(Filter(df.rows, HasKey)), labelsPerRow)
  {
    var kept := KeyFilter(df);
    match kept
    case Err(e) =>
      assert NeededCols[0] !in df.columns;
      r := Err(e);
    case Ok(filtered) =>
      var missing := Absent(NeededCols, df.columns);
      if missing != [] {
        r := Err(MissingColumns(missing));
      } else {
        var table := CreatePdfTable(filtered, labelsPerRow);
        r := Ok(table);
      }
  }

  /** Five items two to a row: three rows, the last one item and one blank. */
  lemma FiveByTwo<T>(items: seq<T>)
    requires |items| == 5
    ensures var t := Chunks(items, 2);
      && |t| == 3
      && t[2] == [Filled(items[4]), Blank]
  {
    var t := Chunks(items, 2);
    assert |t| == 3;
    LastRowPadded(items, 2);
    assert items[4..] == [items[4]];
    assert Fills(items[4..]) == [Filled(items[4])];
    assert PadCount(5, 2) == 1;
    assert t[2] == [Filled(items[4])] + Blanks(1);
  }

  /** Five rows two to a row: three table rows, the last one label and one blank. */
  lemma FiveRowsTwoPerRow(rows: seq<Row>)
    requires |rows| == 5
    ensures var t := Chunks(LabelsOf(rows), 2);
      && |t| == 3
      && t[2] == [Filled(CreateLabel(rows[4])), Blank]
  {
    FiveByTwo(LabelsOf(rows));
  }

  /** No row passes the filter: the table is empty, without a padded row. */
  lemma NoRowsNoTable(labelsPerRow: nat)
    requires 1 <= labelsPerRow <= 3
    ensures Chunks(LabelsOf([]), labelsPerRow) == []
  {
  }
}
