/** Sequences built one element at a time, as a loop appends to a log, kept apart from the engine so that their proofs stay small. */
module Sequences {

  /** The log `[item(1), ..., item(n)]`, built by appending `item(k)` in round `k`. */
  function Appended<T>(item: nat --> T, n: nat): (r: seq<T>)
    requires forall k | 1 <= k <= n :: item.requires(k)
    ensures |r| == n
  {
    if n == 0 then [] else Appended(item, n - 1) + [item(n)]
  }

  /** Entry `g` of the log is what round `g + 1` appended, however many rounds follow. */
  lemma {:induction false} AppendedIndex<T>(item: nat --> T, n: nat, g: nat)
    requires forall k | 1 <= k <= n :: item.requires(k)
    requires g < n
    ensures Appended(item, n)[g] == item(g + 1)
  {
    if g < n - 1 {
      AppendedIndex(item, n - 1, g);
    }
  }

  /** The first `m` entries of the log are the log of the first `m` rounds. */
  lemma {:induction false} AppendedPrefix<T>(item: nat --> T, n: nat, m: nat)
    requires forall k | 1 <= k <= n :: item.requires(k)
    requires m <= n
    ensures Appended(item, n)[..m] == Appended(item, m)
  {
    if m < n {
      AppendedPrefix(item, n - 1, m);
    }
  }
}
