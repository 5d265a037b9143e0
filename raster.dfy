/** Row-major layout of a raster: row `y` of a `width`-wide image starts at `y * width`. */
module Raster {
  /** The index of the first sample of row `y`: `y * width`, counted row by row. */
  function RowStart(y: nat, width: nat): nat {
    if y == 0 then 0 else RowStart(y - 1, width) + width
  }

  /** Row `y` starts at `y * width`. */
  lemma {:induction false} RowStartIsProduct(y: nat, width: nat)
    ensures RowStart(y, width) == y * width
  {
    if y > 0 {
      RowStartIsProduct(y - 1, width);
      assert (y - 1) * width + width == y * width;
    }
  }

  /** A row before row `height` ends at or before the start of row `height`. */
  lemma {:induction false} RowInside(y: nat, height: nat, width: nat)
    requires y < height
    ensures RowStart(y, width) + width <= RowStart(height, width)
  {
    if y + 1 < height {
      RowInside(y, height - 1, width);
    }
  }

  /** Every row before row `height` ends at or before the start of row `height`. */
  lemma AllRowsInside(height: nat, width: nat)
    ensures forall y: nat | y < height :: RowStart(y, width) + width <= RowStart(height, width)
  {
    forall y: nat | y < height
      ensures RowStart(y, width) + width <= RowStart(height, width)
    {
      RowInside(y, height, width);
    }
  }
}
