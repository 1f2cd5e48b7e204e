// Positions and regions of a CSL source file.
//
// A position is a (line, column) pair, both zero-based; the only operations
// the core relies on are equality and the lexicographic order.  A region is
// a pair of positions whose end is inclusive (the lexer stores the position
// of the last character of a token as its end).

module Positions {

  datatype Position = Position(line: nat, column: nat)

  /** The value a default-constructed position holds. */
  const Origin: Position := Position(0, 0)

  /** Lexicographic order: first by line, then by column. */
  predicate Before(a: Position, b: Position)
  {
    a.line < b.line || (a.line == b.line && a.column < b.column)
  }

  predicate AtOrBefore(a: Position, b: Position)
  {
    Before(a, b) || a == b
  }

  lemma OrderIsTotal(a: Position, b: Position)
    ensures Before(a, b) || a == b || Before(b, a)
    ensures !(Before(a, b) && Before(b, a))
  {
  }

  datatype Region = Region(start: Position, end: Position)

  const EmptyRegion: Region := Region(Origin, Origin)

  predicate Contains(r: Region, p: Position)
  {
    AtOrBefore(r.start, p) && AtOrBefore(p, r.end)
  }

  /** Number of lines a region stretches over, as a signed difference. */
  function LineSpan(r: Region): int
  {
    r.end.line - r.start.line
  }

  /** Number of columns between the two ends, as a signed difference. */
  function ColSpan(r: Region): int
  {
    r.end.column - r.start.column
  }
}
