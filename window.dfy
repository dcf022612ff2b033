/**
 * The paging arithmetic of the data panel in frontend/app.js: how many rows a chunk holds
 * for a window height, and how the shared `visibleCount` moves.
 */
module Window {
  /** Approximate height in pixels of one rendered row (`ROW_PX`). */
  const RowPx: nat := 28

  /** The smallest chunk, whatever the window height. */
  const MinChunk: nat := 50

  /** The tree's "Show more" adds `itemsPerChunk`; the table's adds this fixed step. */
  const TableStep: nat := 200

  /** Before any window measurement: `useState(100)` for both counters. */
  const InitialCount: nat := 100

  /**
   * `Math.max(50, Math.ceil((innerHeight * 3) / ROW_PX))`: three window heights' worth of rows,
   * and never fewer than 50.
   */
  function ChunkSize(innerHeight: nat): (r: nat)
    ensures r >= MinChunk
    ensures r * RowPx >= 3 * innerHeight
    ensures r == MinChunk || (r - 1) * RowPx < 3 * innerHeight
  {
    var rows := (3 * innerHeight + RowPx - 1) / RowPx;
    if rows < MinChunk then MinChunk else rows
  }

  /** A taller window never gives a smaller chunk. */
  lemma ChunkSizeMonotone(h1: nat, h2: nat)
    requires h1 <= h2
    ensures ChunkSize(h1) <= ChunkSize(h2)
  {
    var r1, r2 := ChunkSize(h1), ChunkSize(h2);
    if r1 > MinChunk {
      assert (r1 - 1) * RowPx < 3 * h1 <= 3 * h2 <= r2 * RowPx;
    }
  }

  /** `recalc` for an array payload: `Math.min(payload.length, chunk)`. */
  function RecalcVisible(length: nat, chunk: nat): (r: nat)
    ensures r <= length && r <= chunk
    ensures r == length || r == chunk
  {
    if length < chunk then length else chunk
  }

  /** The tree's "Show more" on an array of `length` items: one more chunk, capped at the length. */
  function GrowTree(visible: nat, chunk: nat, length: nat): (r: nat)
    ensures r <= length
    ensures visible <= length ==> visible <= r
    ensures r <= visible + chunk
    ensures r == length || r == visible + chunk
  {
    if length < visible + chunk then length else visible + chunk
  }

  /** The table's "Show more": 200 more rows, with no cap. */
  function GrowTable(visible: nat): (r: nat)
    ensures r > visible
    ensures r == visible + TableStep
  {
    visible + TableStep
  }

  /** Repeated tree "Show more" presses reach the whole array and then stay there. */
  lemma GrowTreeReachesLength(visible: nat, chunk: nat, length: nat)
    requires chunk >= MinChunk && visible <= length
    ensures GrowTree(visible, chunk, length) == length || GrowTree(visible, chunk, length) >= visible + MinChunk
    ensures GrowTree(length, chunk, length) == length
  {
  }

  /**
   * The table's step is not capped: the shared counter can pass the array's length, which the
   * tree's step never does.
   */
  lemma GrowTableOvershoots(visible: nat, chunk: nat, length: nat)
    requires visible <= length < visible + TableStep
    ensures GrowTree(visible, chunk, length) <= length < GrowTable(visible)
  {
  }
}
