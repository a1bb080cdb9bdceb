/** The walk handler's retry rounds: a woodcutter whose walks to its
    target keep failing retries from Searching, counting each failure, and
    gives up on the fifth. */
module WalkRetries {
  import opened WoodcutterRecord
  import opened WoodcutterTick
  import opened WoodcutterPhases

  /** One retry round after a failed walk, from a ready woodcutter in
      Searching with an entity: the tick that re-enters WalkingToWood,
      then the walk handler's failure count and retry wait for a walk that
      does not arrive. Anything else is left as it is. */
  function RetryRound(w: Woodcutter): Woodcutter {
    if MayAct(w) && w.state == Searching then
      RetryWaitEnded(CountFailedWalk(Enter(w, WalkingToWood).w, true), true)
    else w
  }

  /** From Searching with a target, a retry round is the tick followed by
      the whole walk handler for a walk that does not arrive. */
  lemma RetryRoundIsFailedWalk(w: Woodcutter)
    requires MayAct(w) && w.state == Searching && w.target.Some?
    ensures RetryRound(w) == OnWalkToWoodDone(OnGameTick(w).w, NotReached, true)
  {
  }

  /** The round's effect: up to the fourth failure it retries from
      Searching with one more failure counted; the fifth resets to Idle. */
  lemma {:induction false} RetryRoundStep(w: Woodcutter)
    requires MayAct(w) && w.state == Searching && w.target.Some? && w.failedWalks <= MaxFailedWalks
    ensures MayAct(RetryRound(w)) && RetryRound(w).target == w.target
    ensures w.failedWalks < MaxFailedWalks ==>
      RetryRound(w).state == Searching && RetryRound(w).failedWalks == w.failedWalks + 1
    ensures w.failedWalks == MaxFailedWalks ==>
      RetryRound(w).state == Idle && RetryRound(w).failedWalks == 0
  {
    var t := OnGameTick(w).w;
    assert t.state == WalkingToWood && EntityValid(t) && t.target.Some?;
  }

  /** `n` retry rounds in a row. */
  function Retries(w: Woodcutter, n: nat): Woodcutter
    decreases n
  {
    if n == 0 then w else Retries(RetryRound(w), n - 1)
  }

  /** Failed walks below the limit accumulate one per round, the woodcutter
      staying in Searching with the same target. */
  lemma {:induction false} RetriesCountFailures(w: Woodcutter, n: nat)
    requires MayAct(w) && w.state == Searching && w.target.Some?
    requires w.failedWalks + n <= MaxFailedWalks
    ensures var v := Retries(w, n);
      && MayAct(v) && v.state == Searching && v.target == w.target
      && v.failedWalks == w.failedWalks + n
    decreases n
  {
    if n > 0 {
      RetryRoundStep(w);
      RetriesCountFailures(RetryRound(w), n - 1);
    }
  }

  /** The round that takes the count past the limit gives up: Idle,
      counter 0, ready. */
  lemma {:induction false} RetriesGiveUp(w: Woodcutter, n: nat)
    requires MayAct(w) && w.state == Searching && w.target.Some? && w.failedWalks <= MaxFailedWalks
    requires w.failedWalks + n == MaxFailedWalks + 1
    ensures var u := Retries(w, n);
      u.state == Idle && u.failedWalks == 0 && u.ready
    decreases n
  {
    RetryRoundStep(w);
    if n > 1 {
      RetriesGiveUp(RetryRound(w), n - 1);
    }
  }

  /** From any count within the limit, the `n` walks that take the counter
      to 4 fail in Searching; the next failure gives up: Idle, counter 0,
      ready. From a fresh count that is the fifth consecutive failed walk. */
  lemma {:induction false} FailureLimitResets(w: Woodcutter, n: nat)
    requires MayAct(w) && w.state == Searching && w.target.Some?
    requires w.failedWalks + n == MaxFailedWalks
    ensures Retries(w, n).state == Searching && Retries(w, n).failedWalks == MaxFailedWalks
    ensures Retries(w, n + 1).state == Idle && Retries(w, n + 1).failedWalks == 0 && Retries(w, n + 1).ready
    ensures w.failedWalks == 0 ==> n + 1 == 5
  {
    RetriesCountFailures(w, n);
    RetriesGiveUp(w, n + 1);
  }
}
