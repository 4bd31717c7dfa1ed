/**
 * The incremental-build test made for every (SVG, size) pair. The file
 * system is a snapshot from path to modification time: a path is present
 * exactly when the file exists.
 */
module Staleness {
  import opened Naming

  type Mtimes = map<Path, int>

  /** What the up-to-date test leads to: skip the pair, convert it, or fail
      because the SVG cannot be stat'ed (which the per-file handler turns
      into an aborted file). */
  datatype Decision = Skip | Convert | StatFails

  /** The PNG exists and is strictly newer than its source. */
  predicate UpToDate(fs: Mtimes, svg: Path, png: Path) {
    png in fs && svg in fs && fs[png] > fs[svg]
  }

  /** The short-circuit `and` stats the SVG only when the PNG exists. */
  function Decide(fs: Mtimes, svg: Path, png: Path): (d: Decision)
    ensures d == Skip <==> UpToDate(fs, svg, png)
    ensures d == Convert <==> png !in fs || (svg in fs && fs[png] <= fs[svg])
    ensures d == StatFails <==> png in fs && svg !in fs
  {
    if png !in fs then Convert
    else if svg !in fs then StatFails
    else if fs[png] > fs[svg] then Skip
    else Convert
  }
}
