/** Table cells: the Python values the report stores, strings and booleans. */
module Cells {

  datatype Cell = Text(s: string) | Flag(b: bool)

  /** Python's `str(x)` for a cell. */
  function ToStr(c: Cell): string {
    match c
    case Text(s) => s
    case Flag(b) => if b then "True" else "False"
  }

  /** Python's truth value `bool(x)` of a cell. */
  predicate Truthy(c: Cell) {
    match c
    case Text(s) => s != ""
    case Flag(b) => b
  }

  /** Python's `x == False`: only the boolean `False` compares equal. */
  predicate IsFalse(c: Cell) {
    c == Flag(false)
  }

  /** `'pass' if x else 'FAIL'` */
  function PassFail(c: Cell): Cell {
    if Truthy(c) then Text("pass") else Text("FAIL")
  }

  predicate IsFailText(c: Cell) {
    c == Text("FAIL")
  }
}
