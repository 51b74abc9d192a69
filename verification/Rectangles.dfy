/** Table cells as rectangles of coordinates: a cell covers the coordinates from its first row and column on, as many
    as its spans say. The schema of extracted tables and the validator of reassembled tables both ask whether a cell
    lies inside the table and which coordinates it takes: src/modules/contracts/contract-extraction-schema.ts, lines
    63-78, and src/modules/contracts/validate-rate-table.ts, lines 52-71. */
module Rectangles {
  datatype Rectangle = Rectangle(row: int, column: int, rowSpan: int, columnSpan: int)

  predicate Inside(r: Rectangle, rows: int, columns: int) {
    r.row + r.rowSpan <= rows && r.column + r.columnSpan <= columns
  }

  predicate Covered(r: Rectangle, row: int, column: int) {
    r.row <= row < r.row + r.rowSpan && r.column <= column < r.column + r.columnSpan
  }
}
