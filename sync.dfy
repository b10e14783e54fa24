/**
 * The guarded server's named semaphore `client_sem`, as the counter it holds.
 * Blocking in `sem_wait` is not modelled: a caller may wait only while the
 * count is positive.  A ghost history records every wait and post, so that
 * callers can state how often, and in which order, they took and returned a
 * permit.
 */
module Sync {

  /** One operation on the semaphore: a permit taken (sem_wait) or returned (sem_post). */
  datatype Op = Take | Give

  class Semaphore {
    var count: nat
    ghost var history: seq<Op>

    /** sem_open(..., initial). */
    constructor (initial: nat)
      ensures count == initial && history == []
    {
      count := initial;
      history := [];
    }

    /** sem_wait: takes one permit. */
    method Wait()
      requires count > 0
      modifies this
      ensures count == old(count) - 1
      ensures history == old(history) + [Take]
    {
      count := count - 1;
      history := history + [Take];
    }

    /** sem_post: returns one permit. */
    method Post()
      modifies this
      ensures count == old(count) + 1
      ensures history == old(history) + [Give]
    {
      count := count + 1;
      history := history + [Give];
    }
  }
}
