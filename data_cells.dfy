/** A cell of a query-result row as the renderers read it. JavaScript tells
    apart a column the row does not have (`undefined`) from a column that
    holds SQL NULL (`null`), and the renderers' guards (`!== undefined`,
    `===`) and arithmetic treat the two differently. */
module DataCells {
  import opened Wrappers

  /** `undefined`, `null`, or a value. Structural equality of cells is
      JavaScript's `===` on them. */
  datatype Cell<+T> = Undefined | Null | Value(value: T)

  /** The number a numeric cell stands for in arithmetic and in
      `Math.min`/`Math.max`: `null` counts as 0 and `undefined` is `NaN`,
      which is `None` here. */
  function NumberOf(c: Cell<real>): (r: Option<real>)
    ensures r.None? <==> c.Undefined?
  {
    match c
    case Undefined => None
    case Null => Some(0.0)
    case Value(x) => Some(x)
  }

  /** `cell || 0` for a numeric cell: `undefined`, `null` and 0 all give 0. */
  function OrZero(c: Cell<real>): real {
    if c.Value? then c.value else 0.0
  }
}
