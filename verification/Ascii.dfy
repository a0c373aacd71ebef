/** ASCII letters, digits and letter case. */
module Ascii {

  predicate IsAlpha(c: int) { 0x41 <= c <= 0x5A || 0x61 <= c <= 0x7A }

  predicate IsDigit(c: int) { 0x30 <= c <= 0x39 }

  predicate IsAlnum(c: int) { IsAlpha(c) || IsDigit(c) }

  /** The lower case of a letter. */
  function Fold(c: int): int { if 0x41 <= c <= 0x5A then c + 0x20 else c }

  function Lower(t: seq<int>): (r: seq<int>)
    ensures |r| == |t| && forall i | 0 <= i < |t| :: r[i] == Fold(t[i])
  {
    seq(|t|, i requires 0 <= i < |t| => Fold(t[i]))
  }
}
