/**
 The poll around the propagation check. Times are in nanoseconds; the clock reading at each attempt is an
 input, and a pause lasts at least as long as it was asked to.
 */
module Polling {
  import opened Records

  const MILLISECOND: nat := 1_000_000

  datatype Wait = Wait(initialDelay: nat, maxDelay: nat, timeout: nat)

  datatype Answer = Visible | NotYet(why: string) | Refused(error: AcmeError)

  /** What the check answers at one attempt, and the time since the poll started. */
  datatype Attempt = Attempt(answer: Answer, elapsed: nat)

  /** The pause after attempt `i`: doubling, never longer than the maximum after the first one. */
  function Delay(wait: Wait, i: nat): nat {
    if i == 0 then if wait.initialDelay < MILLISECOND then MILLISECOND else wait.initialDelay
    else if 2 * Delay(wait, i - 1) < wait.maxDelay then 2 * Delay(wait, i - 1)
    else wait.maxDelay
  }

  function PowerOfTwo(i: nat): nat {
    if i == 0 then 1 else 2 * PowerOfTwo(i - 1)
  }

  lemma Doubled(p: nat, first: nat)
    ensures (2 * p) * first == 2 * (p * first)
  {
  }

  /** The first pause is at least a millisecond; the one after attempt `i` is 2^i times as long, up to the maximum. */
  lemma {:induction false} DelayMeaning(wait: Wait, i: nat)
    ensures var first := if wait.initialDelay < 1_000_000 then 1_000_000 else wait.initialDelay;
      && Delay(wait, 0) == first
      && (i > 0 ==> Delay(wait, i) == if PowerOfTwo(i) * first < wait.maxDelay then PowerOfTwo(i) * first else wait.maxDelay)
  {
    if i > 1 {
      DelayMeaning(wait, i - 1);
      Doubled(PowerOfTwo(i - 1), Delay(wait, 0));
    } else if i == 1 {
      assert PowerOfTwo(1) == 2;
    }
  }

  /** The time spent pausing before attempt `i`. */
  function Paused(wait: Wait, i: nat): nat {
    if i == 0 then 0 else Paused(wait, i - 1) + Delay(wait, i - 1)
  }

  /** The clock never runs behind the pauses. */
  ghost predicate ClockRuns(wait: Wait, attempts: seq<Attempt>) {
    forall i :: 0 <= i < |attempts| ==> Paused(wait, i) <= attempts[i].elapsed
  }

  lemma {:induction false} PausesAreLong(wait: Wait, i: nat)
    requires wait.maxDelay >= MILLISECOND
    ensures Delay(wait, i) >= MILLISECOND && Paused(wait, i) >= MILLISECOND * i
  {
    if i > 0 {
      PausesAreLong(wait, i - 1);
    }
  }

  /** The outcome of a poll: the last answer, or nothing yet when the given attempts did not decide it. */
  datatype Poll = Decided(answer: Answer) | Undecided

  /** The attempts that a pause followed: the answer was NotYet and the pause ended before the timeout. */
  ghost predicate Retried(wait: Wait, attempts: seq<Attempt>, n: nat) {
    n <= |attempts| &&
    forall i :: 0 <= i < n ==> attempts[i].answer.NotYet? && attempts[i].elapsed + Delay(wait, i) < wait.timeout
  }

  /**
   Polls until the check answers something other than NotYet, or the next pause would reach the timeout.
   `paused` is the total time asked to pause between the `pauses + 1` attempts.
   */
  method ConfirmPropagated(wait: Wait, attempts: seq<Attempt>) returns (poll: Poll, pauses: nat, paused: nat)
    ensures Retried(wait, attempts, pauses) && paused == Paused(wait, pauses)
    ensures poll.Undecided? ==> pauses == |attempts|
    ensures poll.Decided? ==> pauses < |attempts| && poll.answer == attempts[pauses].answer
    ensures poll.Decided? ==>
      !poll.answer.NotYet? || attempts[pauses].elapsed + Delay(wait, pauses) >= wait.timeout
  {
    pauses, paused := 0, 0;
    var delay := if wait.initialDelay < MILLISECOND then MILLISECOND else wait.initialDelay;
    while pauses < |attempts|
      invariant Retried(wait, attempts, pauses) && delay == Delay(wait, pauses) && paused == Paused(wait, pauses)
    {
      var attempt := attempts[pauses];
      if !attempt.answer.NotYet? || attempt.elapsed + delay >= wait.timeout {
        return Decided(attempt.answer), pauses, paused;
      }
      pauses, paused := pauses + 1, paused + delay;
      delay := if 2 * delay < wait.maxDelay then 2 * delay else wait.maxDelay;
    }
    poll := Undecided;
  }

  /**
   However long it polls, the pauses together stay below the timeout; and pauses of a millisecond or more
   bound their number by the milliseconds of the timeout.
   */
  lemma {:induction false} PausesEndBeforeTimeout(wait: Wait, attempts: seq<Attempt>, pauses: nat)
    requires ClockRuns(wait, attempts) && Retried(wait, attempts, pauses) && pauses > 0
    ensures Paused(wait, pauses) < wait.timeout
    ensures wait.maxDelay >= MILLISECOND ==> MILLISECOND * pauses < wait.timeout
  {
    assert Paused(wait, pauses - 1) <= attempts[pauses - 1].elapsed;
    if wait.maxDelay >= MILLISECOND {
      PausesAreLong(wait, pauses);
    }
  }
}
