/**
 The two registry mutations the dispatcher offers to the rest of the node:
 insert-or-overwrite and cancel. (Each also wakes the dispatcher; the wake-up
 is what makes it re-plan, which the dispatcher model does on every step.)
 */
module JobQueue {
  import opened Common

  /** Records `delay` for `target`, replacing any earlier delay; no other
      entry changes and no duplicate key arises. */
  function AddRequestToQueue(jobs: Jobs, target: int, delay: int): (jobs': Jobs)
    ensures target in jobs' && jobs'[target] == delay
    ensures jobs'.Keys == jobs.Keys + {target}
    ensures forall t :: t in jobs && t != target ==> jobs'[t] == jobs[t]
  {
    jobs[target := delay]
  }

  /** Removes `target`; every other entry stays as it was, and removing an
      absent target changes nothing. */
  function CancelRequest(jobs: Jobs, target: int): (jobs': Jobs)
    ensures target !in jobs'
    ensures jobs'.Keys == jobs.Keys - {target}
    ensures forall t :: t in jobs' ==> jobs'[t] == jobs[t]
    ensures target !in jobs ==> jobs' == jobs
  {
    jobs - {target}
  }

  /** Re-inserting overwrites: the last delay wins and the registry grows by
      at most one entry. */
  lemma ReinsertOverwrites(jobs: Jobs, target: int, d1: int, d2: int)
    ensures AddRequestToQueue(AddRequestToQueue(jobs, target, d1), target, d2)
         == AddRequestToQueue(jobs, target, d2)
    ensures |AddRequestToQueue(jobs, target, d1)| == if target in jobs then |jobs| else |jobs| + 1
  {
  }

  /** Cancelling is idempotent, and cancel undoes insert. */
  lemma CancelProperties(jobs: Jobs, target: int, delay: int)
    ensures CancelRequest(CancelRequest(jobs, target), target) == CancelRequest(jobs, target)
    ensures CancelRequest(AddRequestToQueue(jobs, target, delay), target) == CancelRequest(jobs, target)
    ensures target !in jobs ==> CancelRequest(AddRequestToQueue(jobs, target, delay), target) == jobs
  {
  }
}
