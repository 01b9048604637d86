/** The paging arithmetic of the table's `onPage` handler. */
module Paging {

  /** The host's paging object: the fields the grid reads. */
  datatype Paging = Paging(pageSize: int, totalResultCount: int)

  /** `Math.ceil(t / r)` for a positive divisor, on integers. */
  function CeilDiv(t: int, r: int): (q: int)
    requires r > 0
    ensures r * (q - 1) < t <= r * q
  {
    var f := (-t) / r;
    assert r * f <= -t < r * f + r;
    -f
  }

  /**
   * `target <= Math.ceil(total / rows)` in floating point: for a zero divisor the quotient is
   * +Infinity, NaN or -Infinity as `total` is positive, zero or negative.
   */
  predicate WithinTotalPages(target: int, total: int, rows: int) {
    if rows > 0 then target <= CeilDiv(total, rows)
    else if rows < 0 then target <= CeilDiv(-total, -rows)
    else total > 0
  }

  /** For a positive page size: a target page is within the total exactly when its first row exists. */
  lemma WithinMeansFirstRowExists(target: int, total: int, rows: int)
    requires rows > 0
    ensures WithinTotalPages(target, total, rows) <==> rows * (target - 1) < total
  {
    var q := CeilDiv(total, rows);
    if target <= q {
      assert rows * (target - 1) <= rows * (q - 1);
    } else {
      assert rows * (target - 1) >= rows * q;
    }
  }
}
