/** The uploaded sheet as the pipelines see it after the spreadsheet library has read
    it: named columns and rows of cells, where a cell may be missing (pandas NaN). */
module Frames {
  import opened Wrappers
  import opened Dates

  /** A cell value: text (numbers and codes are taken as already printed), or a
      calendar day read from a date-typed cell. */
  datatype Value = Text(s: string) | Day(date: CalendarDate)

  datatype Cell = Missing | Present(value: Value)

  /** One sheet row, keyed by column name. */
  type Row = map<string, Cell>

  /** A table: its column names in header order and its rows in sheet order. */
  datatype Frame = Frame(columns: seq<string>, rows: seq<Row>)

  /** The cell of `row` in column `col`; a row has every column of its table, and a
      key absent from the map reads as a missing cell. */
  function Get(row: Row, col: string): Cell
  {
    if col in row then row[col] else Missing
  }

  /** How a cell reads when interpolated into label text (`f'{row[col]}'`): a missing
      cell prints as `nan` (pandas prints `NaT` in a date-typed column, which is not
      modelled), a date cell as a midnight timestamp. */
  function Show(c: Cell): (s: string)
    ensures c.Present? && c.value.Text? ==> s == c.value.s
    ensures c.Missing? ==> s == "nan"
    ensures c.Present? && c.value.Day? ==> s == FormatDate(c.value.date) + " 00:00:00"
  {
    match c
    case Missing => "nan"
    case Present(Text(s)) => s
    case Present(Day(d)) => FormatDate(d) + " 00:00:00"
  }

  /** The full-width colon that separates a caption from its value on a label. */
  const Colon: string := "："

  /** The caption's value on a label line, if `text` is a line for that caption. */
  function FieldValue(caption: string, text: string): Option<string>
  {
    var head := caption + Colon;
    if |head| <= |text| && text[..|head|] == head then Some(text[|head|..]) else None
  }

  /** One label line `caption：value`. */
  function FieldText(caption: string, value: string): (t: string)
    ensures |t| == |caption| + 1 + |value|
    ensures t[..|caption|] == caption && t[|caption|..|caption| + 1] == Colon && t[|caption| + 1..] == value
  {
    caption + Colon + value
  }

  /** The value is read back verbatim from its label line. */
  lemma FieldTextReads(caption: string, value: string)
    ensures FieldValue(caption, FieldText(caption, value)) == Some(value)
  {
    var t := FieldText(caption, value);
    assert t[..|caption + Colon|] == caption + Colon;
  }
}
