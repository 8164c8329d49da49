/**
 * The shape both simulated tasks share: ten timed steps, step `i` setting the
 * progress to `i * 10`. The awaited timer is one abstract step; a step whose timer
 * rejects sends the run to its error branch before it sets its progress.
 */
module Progress {
  import opened Wrappers

  /** Both flows loop `for (let i = 1; i <= 10; i++)`. */
  const Steps: nat := 10

  /** The progress values a run sets after `n` completed steps: 10, 20, ..., 10 * n. */
  function Ticks(n: nat): (r: seq<int>)
    ensures |r| == n
  {
    if n == 0 then [] else Ticks(n - 1) + [n * 10]
  }

  /** `failAt` names the 1-based step whose timer rejects, if any; other values mean none does. */
  predicate Fails(failAt: Option<nat>) {
    failAt.Some? && 1 <= failAt.value <= Steps
  }

  /** How many steps a run completes. */
  function Reached(failAt: Option<nat>): (k: nat)
    ensures k <= Steps
    ensures k == Steps <==> !Fails(failAt)
  {
    if Fails(failAt) then failAt.value - 1 else Steps
  }

  lemma {:induction false} TicksAt(n: nat, i: nat)
    requires i < n
    ensures Ticks(n)[i] == (i + 1) * 10
  {
    if i < n - 1 {
      TicksAt(n - 1, i);
    }
  }

  /** Progress strictly increases, stays within 10..100, and reaches 100 only at the last step. */
  lemma TicksShape(n: nat)
    requires n <= Steps
    ensures forall i, j :: 0 <= i < j < n ==> Ticks(n)[i] < Ticks(n)[j]
    ensures forall i :: 0 <= i < n ==> 10 <= Ticks(n)[i] <= 100
    ensures forall i :: 0 <= i < n && Ticks(n)[i] == 100 ==> i == Steps - 1
    ensures 100 in Ticks(n) <==> n == Steps
  {
    var t := Ticks(n);
    forall i | 0 <= i < n ensures t[i] == (i + 1) * 10 {
      TicksAt(n, i);
    }
    if n == Steps {
      assert t[n - 1] == 100;
    }
  }
}
