/** The destination worksheet, seen only through the two calls the
    scripts make on it. */
module Sheets {

  /** A worksheet's cell values, row by row. */
  class Sheet {
    var grid: seq<seq<string>>

    constructor (initial: seq<seq<string>>)
      ensures grid == initial
    {
      grid := initial;
    }

    /** `worksheet.clear()`: every cell is emptied. */
    method Clear()
      modifies this
      ensures grid == []
    {
      grid := [];
    }

    /** `worksheet.append_rows(rows, value_input_option='RAW')`: the rows
        go after the last row in use, unchanged. */
    method AppendRows(rows: seq<seq<string>>)
      modifies this
      ensures grid == old(grid) + rows
    {
      grid := grid + rows;
    }
  }
}
