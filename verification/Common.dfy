/** Small things that several modules need. */
module Common {

  /** A user key; only the order of keys matters. */
  type Key = int

  datatype Option<+T> = None | Some(value: T)

  function Bit(b: bool): nat {
    if b then 1 else 0
  }

  function Min(a: int, b: int): int {
    if a < b then a else b
  }

  function Max(a: int, b: int): int {
    if a < b then b else a
  }

  predicate Distinct(s: seq<nat>) {
    forall i, j | 0 <= i < j < |s| :: s[i] != s[j]
  }
}
