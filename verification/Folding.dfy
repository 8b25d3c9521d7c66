/** Loops that update a state and may refuse: what each is proved against. */
module Folding {
  import opened Ordering

  /** `n` rounds of `step` from `start`, stopping at the first refusal. */
  function Fold<S, E>(n: nat, start: S, step: (nat, S) -> Result<S, E>): Result<S, E> {
    if n == 0 then Ok(start)
    else
      match Fold(n - 1, start, step)
      case Err(e) => Err(e)
      case Ok(s) => step(n - 1, s)
  }

  /** A refusal is final. */
  lemma {:induction false} FoldStops<S, E>(n: nat, i: nat, start: S, step: (nat, S) -> Result<S, E>)
    requires i <= n && Fold(i, start, step).Err?
    ensures Fold(n, start, step) == Fold(i, start, step)
  {
    if i < n {
      FoldStops(n - 1, i, start, step);
    }
  }

  /** What each accepted round keeps holds after all of them. */
  lemma {:induction false} FoldKeeps<S(!new),
    E>(n: nat, start: S, step: (nat, S) -> Result<S, E>, holds: (nat, S) -> bool)
    requires holds(0, start)
    requires forall i: nat, s :: i < n && holds(i, s) && step(i, s).Ok? ==> holds(i + 1, step(i, s).value)
    ensures Fold(n, start, step).Ok? ==> holds(n, Fold(n, start, step).value)
  {
    if n > 0 {
      FoldKeeps(n - 1, start, step, holds);
    }
  }

  /** If it refuses, it does so in one round, with everything kept until then. */
  lemma {:induction false} FoldRefusal<S(!new),
    E>(n: nat, start: S, step: (nat, S) -> Result<S, E>, holds: (nat, S) -> bool)
    returns (i: nat, s: S)
    requires holds(0, start)
    requires forall i: nat, s :: i < n && holds(i, s) && step(i, s).Ok? ==> holds(i + 1, step(i, s).value)
    requires Fold(n, start, step).Err?
    ensures i < n && holds(i, s) && step(i, s).Err? && step(i, s).error == Fold(n, start, step).error
  {
    if Fold(n - 1, start, step).Err? {
      i, s := FoldRefusal(n - 1, start, step, holds);
    } else {
      FoldKeeps(n - 1, start, step, holds);
      i, s := n - 1, Fold(n - 1, start, step).value;
    }
  }
}
