/** Products, in the few forms the models need. */
module Arithmetic {
  lemma TimesMonotone(a: nat, b: nat, c: nat)
    requires a <= b
    ensures 0 <= a * c <= b * c
  {
    assert b * c == a * c + (b - a) * c;
  }

  /** Where row `r` starts in a table of rows `width` long. */
  function RowStart(r: nat, width: nat): nat {
    r * width
  }

  lemma RowFollows(r: nat, width: nat)
    ensures RowStart(r + 1, width) == RowStart(r, width) + width
  {
  }

  lemma RowsGrow(r: nat, s: nat, width: nat)
    requires r <= s
    ensures RowStart(r, width) <= RowStart(s, width)
  {
    TimesMonotone(r, s, width);
  }

  /** The first `right` positions of row `r` lie inside `n` rows. */
  lemma RowFits(r: nat, n: nat, width: nat, right: nat)
    requires r < n && right <= width
    ensures RowStart(r, width) + right <= RowStart(n, width)
  {
    hide RowStart;
    RowFollows(r, width);
    RowsGrow(r + 1, n, width);
  }

  /** A stretch of row `s`, as positions, holds exactly the columns of that row. */
  lemma RowStretch(width: nat, r: nat, c: nat, s: nat, x: nat, right: nat)
    requires c < width && x <= right <= width
    ensures RowStart(s, width) + x <= RowStart(r, width) + c < RowStart(s, width) + right <==> r == s && x <= c < right
  {
    hide RowStart;
    if r < s {
      RowFits(r, s, width, c + 1);
    } else if s < r {
      RowFits(s, r, width, width);
    }
  }

  /** Two positions in a table with `width` columns agree exactly if row and column do. */
  lemma SamePosition(width: nat, r: nat, c: nat, s: nat, d: nat)
    requires c < width && d < width
    ensures RowStart(r, width) + c == RowStart(s, width) + d <==> r == s && c == d
  {
    hide RowStart;
    RowStretch(width, r, c, s, d, d + 1);
  }
}
