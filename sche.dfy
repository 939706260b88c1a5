/**
 * The next-task search of sche.c. The scheduler's handler itself acts on the
 * kernel's task state and lives with it (Syscall.Kernel).
 */
module Sche {
  const MAX_TASKS := 6

  /** The i-th position tried after `curr`: (curr + i) mod 5, so slot 5 is never a candidate. */
  function Candidate(curr: nat, i: nat): (k: nat)
    ensures k < MAX_TASKS - 1
  {
    (curr + i) % (MAX_TASKS - 1)
  }

  /** The first running candidate among tries i .. 5, or -1. */
  function NextFrom(running: seq<bool>, curr: nat, i: nat): (r: int)
    requires |running| == MAX_TASKS && 1 <= i <= MAX_TASKS
    decreases MAX_TASKS - i
    ensures -1 <= r < MAX_TASKS - 1
    ensures r >= 0 ==>
      (running[r] &&
       exists t :: i <= t < MAX_TASKS && r == Candidate(curr, t) &&
         forall u :: i <= u < t ==> !running[Candidate(curr, u)])
    ensures r == -1 <==> forall t :: i <= t < MAX_TASKS ==> !running[Candidate(curr, t)]
  {
    if i == MAX_TASKS then -1
    else if running[Candidate(curr, i)] then Candidate(curr, i)
    else NextFrom(running, curr, i + 1)
  }

  /**
   * get_next_availble_process: tries (curr + i) mod 5 for i = 1 .. 5 and returns
   * the first position whose task is running, or -1. `running[k]` is the
   * running flag of the PCB in slot k.
   */
  function NextAvailable(running: seq<bool>, curr: nat): (r: int)
    requires |running| == MAX_TASKS
    ensures -1 <= r < MAX_TASKS - 1
    ensures r >= 0 ==>
      (running[r] &&
       exists t :: 1 <= t < MAX_TASKS && r == Candidate(curr, t) &&
         forall u :: 1 <= u < t ==> !running[Candidate(curr, u)])
  {
    NextFrom(running, curr, 1)
  }

  /**
   * The five tries visit each of positions 0 .. 4 exactly once, ending with
   * `curr` itself when it is below 5.
   */
  lemma CandidatesCover(curr: nat, k: nat)
    requires k < MAX_TASKS - 1
    ensures exists t :: 1 <= t < MAX_TASKS && Candidate(curr, t) == k
    ensures curr < MAX_TASKS - 1 ==> Candidate(curr, MAX_TASKS - 1) == curr
    ensures forall t1, t2 :: 1 <= t1 < t2 < MAX_TASKS ==> Candidate(curr, t1) != Candidate(curr, t2)
  {
    var d := (k - curr) % 5;
    var q := (k - curr) / 5;
    assert k - curr == 5 * q + d;
    var t := if d == 0 then 5 else d;
    var m := if d == 0 then 1 - q else -q;
    assert curr + t == k + 5 * m;
    assert (k + 5 * m) % 5 == k;
    assert Candidate(curr, t) == k;
  }

  /**
   * The search fails exactly when none of slots 0 .. 4 is running; slot 5's
   * flag is never consulted.
   */
  lemma {:induction false} NextAvailableNone(running: seq<bool>, curr: nat)
    requires |running| == MAX_TASKS
    ensures NextAvailable(running, curr) == -1 <==> forall k :: 0 <= k < MAX_TASKS - 1 ==> !running[k]
  {
    if NextAvailable(running, curr) == -1 {
      forall k | 0 <= k < MAX_TASKS - 1
        ensures !running[k]
      {
        CandidatesCover(curr, k);
      }
    }
  }

  /** Whether slot 5 runs never affects the search. */
  lemma NextAvailableIgnoresLastSlot(running: seq<bool>, curr: nat, b: bool)
    requires |running| == MAX_TASKS
    ensures NextAvailable(running[MAX_TASKS - 1 := b], curr) == NextAvailable(running, curr)
  {
    NextFromIgnoresLastSlot(running, curr, b, 1);
  }

  lemma {:induction false} NextFromIgnoresLastSlot(running: seq<bool>, curr: nat, b: bool, i: nat)
    requires |running| == MAX_TASKS && 1 <= i <= MAX_TASKS
    decreases MAX_TASKS - i
    ensures NextFrom(running[MAX_TASKS - 1 := b], curr, i) == NextFrom(running, curr, i)
  {
    if i < MAX_TASKS {
      NextFromIgnoresLastSlot(running, curr, b, i + 1);
    }
  }
}
