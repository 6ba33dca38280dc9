// What several parts of the model share.

module Common {

  datatype Option<T> = None | Some(value: T)

  // The states of a neighbour, in order.
  datatype NbrState = Down | Attempt | Init | TwoWay | ExStart | Exchange | Loading | Full

  // Ages of LSAs, in seconds; the high bit of an age field stands for one that stays the same.
  const MAX_AGE: nat := 3600
  const MAX_AGE_DIFF: nat := 900
  const DO_NOT_AGE: nat := 0x8000

  function Pow2(n: nat): (p: nat)
    ensures p >= 1
  {
    if n == 0 then 1 else 2 * Pow2(n - 1)
  }
}
