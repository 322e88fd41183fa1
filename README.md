# Excel2Label in Dafny

Excel2Label turns a purchasing spreadsheet into printable material labels. It has
two pipelines, and this project models the logic of both between reading the sheet
and rendering the output.

- **HTML pages (`app.py`).** The delivery date (`交货日期`) is normalised to
  `YYYY-MM-DD`. The upload must contain all eight required columns; if it does,
  the sheet is cut to them in their fixed order, and rows whose eight values are
  all missing are dropped. The remaining rows become label blocks, laid out 14 to
  an A4 page (2 across, 7 down). The last page is padded with blank blocks.
- **PDF grid (`app_version2.py`).** Rows without a contract sequence number
  (`合同序号*`) are skipped. Each remaining row becomes a seven-line label. The
  labels are grouped, in order, into table rows of `labels_per_row` cells (1 to
  3). A short last row is padded with empty cells.

The modules:

- `Wrappers`: the `Option` and `Result` types.
- `Seqs`: the stable row filter, described by its kept positions, and flattening
  of a grid into reading order.
- `Grid`: slots (`Filled(label)` or `Blank`) and `Chunks`, the chunking of a
  label sequence into fixed-width rows with blank padding. Both layout loops are
  proved equal to `Chunks`, so the properties proved of `Chunks` hold of both.
- `Dates`: calendar dates, their `YYYY-MM-DD` text, and its exact inverse.
- `Frames`: cells (missing, text or date), rows keyed by column name, tables, how
  a cell prints inside label text, and the `caption：value` line form.
- `HtmlLabels`: the `app.py` pipeline.
- `PdfLabels`: the `app_version2.py` pipeline.

A page or table row `r` covers the labels from `r * cap` up to
`min((r + 1) * cap, n)` (`app.py:116-117`), and there are `(n + cap - 1) // cap`
of them (`app.py:112`); the model writes these as `Grid.RowStart`, `Grid.RowEnd`
and `Grid.CeilDiv`.

The two layout loops are methods with loop invariants, written as the source
writes them: `generate_html_labels` has a page loop, a label loop and a blank
loop; `create_pdf` has a flush-on-full loop and a padding `while` loop. Each is
proved to return exactly `Chunks` of the rows' labels. Filtering, label building
and date formatting are pure functions, with lemmas about them.

A label is modelled by its content rather than its markup: a sequence of lines,
each a sequence of text items. An HTML page, or a PDF table row, is a sequence of
slots.

Points of the code that the model keeps as written:

- In `app.py` the dates are normalised (lines 21-22) before the column check
  (line 25). A date the parser rejects therefore aborts the run even when a
  required column is also missing. `Prepare` keeps that order.
- `app.py` labels have eight captioned fields plus the supplier line. The caption
  `合同编号` shows column `完成` (line 124), and `序号` shows `合同序号*`.
- In `app.py` a delivery date that `to_datetime` reads as `NaT` (texts such as
  `NaT`) becomes a missing value, so a row whose only value it was is dropped by
  `dropna(how='all')`.
- `app_version2.py` does not normalise dates. A date cell (a day at midnight)
  prints as the pandas timestamp text `YYYY-MM-DD 00:00:00` (`Frames.Show`).
- `app_version2.py` has no explicit column check. The preview on line 108 looks
  up all seven columns, so a missing one raises a `KeyError` and no PDF is made;
  a missing key column raises one already on line 103. Both are modelled as
  `Err(MissingColumns(...))`.

## Model

| member | source | states |
|---|---|---|
| `Dates.FormatDate` | app.py:22 | the result has ten characters: digits, with dashes at positions 4 and 7 (`%Y-%m-%d`) |
| `Dates.ParseFormat` | app.py:22 | formatting loses nothing: the canonical reader gives the date back from its text |
| `Dates.FormatParse` | app.py:22 | any text the canonical reader accepts is the formatted text of the date it reads |
| `Dates.FormatInjective` | app.py:22 | distinct dates get distinct texts |
| `Dates.FormatMayDay2024` | app.py:22 | the first of May 2024 is written `2024-05-01` |
| `Frames.Show` | app_version2.py:15-19 | a text cell prints verbatim inside an f-string; a missing cell prints as `nan` (not `NaT`, see "## Left out"); a date cell prints as `YYYY-MM-DD 00:00:00` |
| `Frames.FieldText` | app.py:124-144 | a label line is the caption, the full-width colon, then the value, and nothing else |
| `Frames.FieldTextReads` | app.py:124-144 | a `caption：value` line gives its value back verbatim under its caption |
| `HtmlLabels.NormalizeCell` | app.py:22 | a delivery-date cell fails only if it is text the parser cannot read; the result is missing exactly when the cell was missing or is text the parser reads as `NaT`; a present result is canonical `YYYY-MM-DD` text; a date cell, or a text cell the parser reads as a day, becomes the formatted text of that date |
| `HtmlLabels.SlashDateNormalized` | app.py:22 | a cell `2024/5/1`, which the parser reads as 1 May 2024, becomes `2024-05-01` |
| `HtmlLabels.NormalizeDates` | app.py:21-22 | succeeds exactly when every date parses; same number of rows; each row's date cell is normalised and every other cell is unchanged |
| `HtmlLabels.NormalizeFrame` | app.py:21-22 | fails exactly when the sheet has a date column one of whose cells does not parse; otherwise same columns, and rows that are `NormalizeDates` of the sheet's rows when it has a date column and the sheet's own rows when it has none |
| `HtmlLabels.Project` | app.py:26 | `df[needed_cols]` for one row: exactly the eight required columns, each holding the row's cell |
| `HtmlLabels.ProjectAll` | app.py:26 | every row cut to the required columns, in order |
| `HtmlLabels.Prepare` | app.py:21-26 | succeeds exactly when all eight columns are present and every date parses; an unparseable date gives `DateParseFailure` whether or not a column is missing; a missing column always gives an error; on success the columns are the required list and no row is added |
| `HtmlLabels.PlanColumnMissing` | app.py:25 | an upload without `计划号` yields an error and no table |
| `HtmlLabels.HasColumns` | app.py:25 | holds exactly when every required column is among the sheet's columns |
| `HtmlLabels.AnyPresent` | app.py:26 | holds exactly when some required column of the row has a present value, the rows `dropna(how='all')` keeps |
| `HtmlLabels.AnyPresentProject` | app.py:26 | a row has a required value exactly when its cut-down form has one |
| `HtmlLabels.KeepsValueWithoutNaT` | app.py:21-26 | when the date is not text read as `NaT`, a row keeps a value after normalisation exactly when it has one |
| `HtmlLabels.AnyPresentNormalized` | app.py:21-26 | a normalised row has a required value exactly when the uploaded row has one that is not a date text read as `NaT` |
| `HtmlLabels.PreparedRows` | app.py:21-26 | the filtered rows are the sheet's rows at strictly increasing positions, and a position is kept exactly when one of its eight required values is still present after date normalisation |
| `HtmlLabels.NaTOnlyRowDropped` | app.py:22-26 | a row whose only value is the date text `NaT` is dropped, leaving an empty table |
| `HtmlLabels.PreparedCells` | app.py:22-26 | every cell of a filtered row is the uploaded cell of its source row, except the date, which is that cell normalised |
| `HtmlLabels.PreparedRowsArePrepared` | app.py:21-26 | every filtered row has exactly the required columns, at least one present value, and a missing or canonical date |
| `HtmlLabels.PreparedRowFixed` | app.py:21-26 | a prepared row is left unchanged by normalisation and by the column cut |
| `HtmlLabels.PreparedDatesParse` | app.py:21-22 | the dates of prepared rows all parse again |
| `HtmlLabels.ReprepareRow` | app.py:21-26 | one prepared row comes back from normalisation and the cut unchanged |
| `HtmlLabels.ReprepareRows` | app.py:21-26 | prepared rows come back from normalisation and the cut unchanged |
| `HtmlLabels.PreparedFrameFixed` | app.py:21-26 | a frame of prepared rows over the required columns is its own preparation |
| `HtmlLabels.PrepareIdempotent` | app.py:21-26 | with a parser that reads canonical dates, preparing the prepared table again gives the same table |
| `HtmlLabels.HtmlFields` | app.py:123-144 | a label has eight field lines |
| `HtmlLabels.HtmlFieldsRead` | app.py:123-144 | field line `i` reads back, under its caption, as column `FieldCols[i]` as it prints |
| `HtmlLabels.ArrangeInOrder` | app.py:121-149 | read in order, the block is the eight field lines followed by the supplier line |
| `HtmlLabels.HtmlLabel` | app.py:121-149 | one label block; read in order it is the row's eight field lines, then the supplier line |
| `HtmlLabels.HtmlLabelLines` | app.py:121-149 | a block has six lines of 1, 3, 2, 1, 1 and 1 items; item `i` of the first eight is `caption：value` of its column (合同编号/完成, 序号, 计划号, 采购数量, 送达仓库, 材料货号, 物料名称, 交货日期); the supplier is last |
| `HtmlLabels.FieldColsCoverNeeded` | app.py:14 | the block shows every required column exactly once (the column lists are permutations) |
| `HtmlLabels.HtmlLabelInjective` | app.py:121-149 | two rows give the same block exactly when they print the same eight values |
| `HtmlLabels.LabelsOf` | app.py:119-120 | one block per row, in row order |
| `HtmlLabels.PageStep` | app.py:114-153 | one page turn extends the flattened pages by the slice `[14p, min(14(p+1), n))` as filled slots, then its blanks |
| `HtmlLabels.LayOutPage` | app.py:119-153 | a page is the blocks of its slice, in order, followed by `14 - (end - start)` blank blocks |
| `HtmlLabels.GenerateHtmlLabels` | app.py:110-155 | the pages are `Chunks` of the rows' blocks by 14; there are `(n + 13) / 14` of them; every page has 14 slots; the filled slots read in order are the blocks of the rows |
| `HtmlLabels.AllPagesAreChunks` | app.py:112-155 | after the last page the pages are the chunking of the blocks, and the filled slots give the blocks back |
| `HtmlLabels.HtmlDocument` | app.py:16-175 | fails exactly when preparation fails, with the error `Prepare` gives (`DateParseFailure` for the `except` branch, `SchemaMismatch` for the `else` branch), and always when a column is missing; otherwise the page sequence of the prepared rows |
| `HtmlLabels.FifteenByFourteen` | app.py:111-153 | 15 items by 14 make two pages: 14 filled slots, then one filled slot and 13 blanks |
| `HtmlLabels.FifteenRowsTwoPages` | app.py:111-153 | 15 rows make two pages: 14 labels, then one label and 13 blank blocks |
| `Seqs.Filter` | app_version2.py:103 | a filter never lengthens its input |
| `Seqs.KeptIndicesSpec` | app_version2.py:103 | the kept positions are in range and strictly increasing, and are exactly the positions whose row passes |
| `Seqs.FilterAtKept` | app_version2.py:103 | the filtered rows are the input read at the kept positions |
| `Seqs.FilterSpec` | app_version2.py:103 | the filter is stable: nothing is reordered, duplicated or lost, and a row is kept exactly when it passes |
| `Seqs.FilterIdempotent` | app.py:26 | filtering the filtered rows again removes nothing |
| `Seqs.FilterAllKept` | app.py:26 | a filter every row passes is the identity |
| `Seqs.FlattenUniformInjective` | app_version2.py:60-68 | rows of equal width are determined by their reading order |
| `Grid.FilledItemsOfPadded` | app.py:152-153 | blank padding carries no labels: the filled slots of labels plus blanks are the labels |
| `Grid.CeilDivBound` | app.py:112-114 | page `r` exists, that is `r < (n + cap - 1) / cap`, exactly when its first index `r * cap` is below `n` |
| `Grid.Chunks` | app_version2.py:57-68 | the grid has `ceil(n/cap)` rows, each of `cap` slots |
| `Grid.ChunksFlatten` | app_version2.py:57-68 | read in order, the grid is every label in order, then `cap - n mod cap` blanks when `n mod cap != 0` and none otherwise |
| `Grid.ChunksRoundTrip` | app_version2.py:45-57 | the filled slots of the grid, read row by row, are exactly the labels in order |
| `Grid.ChunksRow` | app.py:116-153 | row `r` holds the labels of `[r*cap, min((r+1)*cap, n))` followed by blanks up to `cap`, and that slice is non-empty and at most `cap` long |
| `Grid.RowsAdjacent` | app.py:116-117 | the slice of one page ends where the next page's slice starts |
| `Grid.FullRowsBeforeLast` | app.py:112-117 | every row but the last is full: `cap` labels and no blank |
| `Grid.LastRowPadded` | app_version2.py:65-68 | the last row holds the labels from `cap*(rows-1)` on, then `PadCount(n, cap)` blanks, `cap` slots in all |
| `Grid.PadUnique` | app_version2.py:65-68 | the padding count is the only amount below `cap` that fills the last row |
| `Grid.ChunksCharacterized` | app_version2.py:37-68 | any grid of `cap`-wide rows reading as the labels followed by fewer than `cap` blanks is `Chunks` |
| `PdfLabels.KeyFilter` | app_version2.py:103 | fails exactly when the key column is absent (the `KeyError`); otherwise every kept row has a contract sequence number and none is added |
| `PdfLabels.HasKey` | app_version2.py:103 | holds exactly when the row has the key column with a present value (`notna()`) |
| `PdfLabels.KeyFilterSpec` | app_version2.py:103 | the kept rows are the sheet's rows at strictly increasing positions, a row being kept exactly when its key is present |
| `PdfLabels.PdfFields` | app_version2.py:15-19 | a label has seven field cells |
| `PdfLabels.PdfFieldsRead` | app_version2.py:15-19 | field cell `i` reads back, under its caption, as column `NeededCols[i]` as it prints |
| `PdfLabels.ArrangeInOrder` | app_version2.py:13-21 | read in order, the label is the supplier line, the seven field cells, then `RoHS` |
| `PdfLabels.CreateLabel` | app_version2.py:11-21 | `create_label`: read in order, the supplier line, the row's seven field cells, then `RoHS` |
| `PdfLabels.CreateLabelLines` | app_version2.py:11-21 | exactly seven lines; lines 2 and 6 hold two cells and the others one; the first is the supplier and the last `RoHS`; the field cells are `caption：value` of their columns in order |
| `PdfLabels.CreateLabelInjective` | app_version2.py:11-21 | two rows give the same label exactly when they print the same seven values |
| `PdfLabels.LabelsOf` | app_version2.py:45-46 | one label per row, in row order |
| `PdfLabels.LabelStep` | app_version2.py:57-62 | appending a label keeps the table plus the current row equal to the labels seen so far, before and after a flush |
| `PdfLabels.CreatePdfTable` | app_version2.py:37-68 | the table is `Chunks` of the rows' labels by `labels_per_row`; it has `ceil(n/k)` rows of `k` cells each; its filled cells read in order are the labels of the rows |
| `PdfLabels.PadRow` | app_version2.py:65-67 | the leftover row followed by exactly enough empty cells to fill it |
| `PdfLabels.TableComplete` | app_version2.py:64-68 | after the loop and the padding, the table is the chunking of the labels |
| `PdfLabels.Absent` | app_version2.py:100-108 | the missing names are empty exactly when every needed column is present, and they are exactly the needed names that are absent |
| `PdfLabels.MaterialLabels` | app_version2.py:95-112 | fails exactly when one of the seven columns is absent; otherwise the table of the key-filtered rows' labels |
| `PdfLabels.FiveByTwo` | app_version2.py:60-68 | 5 items by 2 make three rows, the last one filled cell and one blank |
| `PdfLabels.FiveRowsTwoPerRow` | app_version2.py:60-68 | 5 rows two to a row make three table rows, the last one label and one empty cell |
| `PdfLabels.NoRowsNoTable` | app_version2.py:64-68 | no rows make an empty table, with no padded row |

## Left out

- The Streamlit interface is not modelled: title, upload widget, preview tables, buttons, the number input, messages and downloads (`app.py:7-11`, `28-29`, `166-177`; `app_version2.py:86-118`). Of it only the 1..3 bound on `labels_per_row` (`app_version2.py:93`) survives, as a precondition. The PDF is modelled as produced when the button is pressed.
- Reading the spreadsheet (`pd.read_excel`) is a library call. The model starts from a table of named columns and rows, where a cell is missing, text or a date. Numeric cells are taken as already printed to text.
- Date parsing (`pd.to_datetime`) is a library parser and is the parameter `parse` of the HTML pipeline. For each text it gives a day, `NaT`, or no reading, which raises. Which texts it reads which way is not modelled. `PrepareIdempotent` requires that it read canonical `YYYY-MM-DD` text as that date.
- `pd.to_datetime` parses the whole column at once, and infers one format from its first present value. The parameter `parse` reads each cell on its own, so in the model "every date parses" is a property of each cell alone; a column whose cells use different formats is not modelled.
- Date cells are calendar days. A timestamp with a time of day is not modelled: `app.py`'s `strftime` drops the time, while `app_version2.py` prints it (`2024-05-01 14:30:00`), where the model prints `00:00:00`.
- Dates are years 1 to 9999 of the proleptic Gregorian calendar; the narrower range of pandas timestamps is not modelled.
- `Frames.Show` prints every missing cell as `nan`. In pandas, a missing cell of a date-typed column prints as `NaT` in both scripts. In `app_version2.py` that holds for every one of the seven columns (lines 15-19). In `app.py` it holds for every date-typed column except `交货日期`, which line 22 turns into text (a missing date there becomes `nan`). The model does not record a column's type, so it prints `nan` in those cases.
- The HTML document is modelled as pages of label blocks, not as markup. The CSS and static template text (`app.py:34-108`, `157`) and the `<div>` wrappers are constants with no logic.
- ReportLab (`SimpleDocTemplate`, `Table`, `TableStyle`, `doc.build`) is a rendering engine and is left out; so is the floating-point `label_width` (`app_version2.py:42`). The table is modelled as the nested list handed to it; what ReportLab does with an empty table is not modelled.
- Base64 encoding, the download link and the output buffer are I/O.
- The generic `except Exception` of `app.py` (lines 176-177) surrounds the whole run. In the modelled part its only reachable cause is a date that `to_datetime` cannot read, the `Error` case `DateParseFailure`. A missing column raises nothing: line 25's test is false and the `else` branch of lines 174-175 shows an error message, the `Error` case `SchemaMismatch`.
- `HtmlLabels.HtmlFields` and `PdfLabels.PdfFields` state only their length; what each field line says is stated by `HtmlFieldsRead` and `PdfFieldsRead`.
