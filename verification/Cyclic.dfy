/** Searching a table from a given row on, upwards and around its end. */
module Cyclic {

  /** How far row t is from row n. */
  function Distance(n: nat, t: nat, size: nat): (d: int)
    ensures n < size && t < size ==> d == (t - n) % size
  {
    if t >= n then t - n else t - n + size
  }

  /** The row i places after row n. */
  function RowAt(n: nat, i: nat, size: nat): nat {
    if n + i < size then n + i else n + i - size
  }

  /** Walking on from row n meets every row once, the one at distance i after i steps. */
  lemma WalkRound(n: nat, i: nat, size: nat)
    requires n < size && i < size
    ensures RowAt(n, i, size) < size && Distance(n, RowAt(n, i, size), size) == i
    ensures forall t: nat {:trigger Distance(n, t, size)} :: t < size && Distance(n, t, size) == i ==>
              t == RowAt(n, i, size)
    ensures forall t: nat {:trigger Distance(n, t, size)} :: t < size ==> 0 <= Distance(n, t, size) < size
    ensures RowAt(n, i + 1, size) == if RowAt(n, i, size) + 1 == size then 0 else RowAt(n, i, size) + 1
    ensures RowAt(n, 0, size) == n && RowAt(n, size, size) == n
  {
  }
}
