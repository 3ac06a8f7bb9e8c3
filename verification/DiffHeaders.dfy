/** How a unified-diff header names a range (POSIX.1-2017 XCU diff, "Diff -u or -U Output Format"). */
module DiffHeaders {
  /** Zero-based place a header names: an empty range names the line before it. */
  function Position(start: int, size: int): int {
    if size == 0 then start else start - 1
  }
}
