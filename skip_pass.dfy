/** The pass both similarity listings make: every row in order, the target's row
    skipped. OtherRow numbers the rows that pass visits, PositionOfRow inverts it. */
module SkipPass {

  /** The row visited k-th by a pass over all rows that skips row `target`:
      rows in order, the target left out. */
  function OtherRow(k: nat, target: nat): (i: nat)
    ensures i != target
    ensures i == k || i == k + 1
  {
    if k < target then k else k + 1
  }

  /** The inverse of OtherRow: the position at which such a pass visits row i. */
  function PositionOfRow(i: nat, target: nat): (k: nat)
    requires i != target
    ensures OtherRow(k, target) == i
    ensures forall k' :: OtherRow(k', target) == i ==> k' == k
  {
    if i < target then i else i - 1
  }
}
