/** The closed alphabet of structural symbols shared by the classifier and the validator. */
module Symbols {

  /** One contract section: Header, Role, Duration, Scope/duties, Compensation,
      Benefits, conFidentiality, Termination, signatures (X). */
  datatype Symbol = H | R | D | S | C | B | F | T | X

  /** Python's None, or a value. */
  datatype Option<T> = None | Some(value: T)

  /** Position of a symbol in the canonical section order H, R, D, S, C, B, F, T, X.
      The classifier tries symbols in this order and the validator demands it. */
  function Rank(s: Symbol): (n: nat)
    ensures n < 9
  {
    match s
    case H => 0
    case R => 1
    case D => 2
    case S => 3
    case C => 4
    case B => 5
    case F => 6
    case T => 7
    case X => 8
  }

  /** The symbol at a given position of the canonical order. */
  function SymbolOfRank(n: nat): (s: Symbol)
    requires n < 9
    ensures Rank(s) == n
  {
    [H, R, D, S, C, B, F, T, X][n]
  }
}
