/** Infinite schedules. */
module Schedules {

  /** The turn x comes again at time t or later. */
  ghost predicate Again<T>(sched: nat -> T, x: T, t: nat) {
    exists u: nat :: t <= u && sched(u) == x
  }

  lemma NextTurn<T>(sched: nat -> T, x: T, t: nat) returns (u: nat)
    requires Again(sched, x, t)
    ensures t <= u && sched(u) == x
  {
    u :| t <= u && sched(u) == x;
  }
}
