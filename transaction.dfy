/**
 * Bounded-retry acquisition of read and write transactions on a document
 * (`TransactionRetry` in collab/src/core/transaction.rs).
 *
 * The document only offers non-blocking "try" acquisition. Each variant polls
 * it while less than `timeout` has elapsed since the value was constructed,
 * sleeping `retryInterval` after every refused try. At the deadline the read
 * variant and `GetWriteTxnWith` fall back to one blocking acquisition, while
 * the `Try*` variants report `AcquiredWriteTxnFail`.
 *
 * No real lock or clock is modelled. What the document answers to the
 * successive tries of one call is an oracle sequence of `Attempt`s, and the
 * monotone clock is an integer of milliseconds that each refused try advances
 * by the retry interval plus whatever the sleep overran.
 */
module Transaction {
  import opened Wrappers

  /** The tag naming who authored a write; opaque to this component. */
  datatype Origin = Origin(tag: string)

  /** What a transaction is acquired for; a write may carry an origin. */
  datatype Kind = Read | Write(origin: Option<Origin>)

  /** A granted transaction handle. */
  datatype Txn = Txn(kind: Kind)

  datatype CollabError = AcquiredWriteTxnFail

  /**
   * The document's answer to one non-blocking try. When it refuses, the
   * sleep that follows lasts the retry interval plus `overrun` milliseconds.
   */
  datatype Attempt = Granted | Busy(overrun: nat)

  const DEFAULT_TIMEOUT_MS: nat := 2000
  const DEFAULT_RETRY_INTERVAL_MS: nat := 50

  /** The answer to the i-th try; past the end of the oracle the lock stays held. */
  function AttemptAt(oracle: seq<Attempt>, i: nat): Attempt
  {
    if i < |oracle| then oracle[i] else Busy(0)
  }

  function Overrun(a: Attempt): nat
  {
    if a.Busy? then a.overrun else 0
  }

  /**
   * The clock when the deadline is checked for the i-th time, on a call that
   * starts at `now`: every earlier try was refused and slept at least
   * `interval`.
   */
  function ClockAt(now: int, interval: nat, oracle: seq<Attempt>, i: nat): (t: int)
    ensures t >= now + i * interval
  {
    if i == 0 then now
    else
      var before := ClockAt(now, interval, oracle, i - 1);
      assert before + interval >= now + i * interval;
      before + interval + Overrun(AttemptAt(oracle, i - 1))
  }

  /**
   * What one polling loop may end in: `tries` tries were made, each while
   * less than `timeout` had elapsed since `start`; every try failed except,
   * when `granted`, the last one; a loop that was not granted stopped only
   * because the deadline had been reached. `clock` is the time the loop ends.
   */
  predicate PolledToOutcome(start: int, timeout: nat, interval: nat, now: int, oracle: seq<Attempt>,
                            tries: nat, granted: bool, clock: int)
  {
    && (forall i | 0 <= i < tries :: ClockAt(now, interval, oracle, i) - start < timeout)
    && (forall i | 0 <= i < tries && !(granted && i == tries - 1) :: AttemptAt(oracle, i).Busy?)
    && (granted ==> 0 < tries && AttemptAt(oracle, tries - 1).Granted?
                    && clock == ClockAt(now, interval, oracle, tries - 1))
    && (!granted ==> clock == ClockAt(now, interval, oracle, tries) && clock - start >= timeout)
  }

  /** The number of refused tries in a loop of `tries` tries. */
  function FailedTries(tries: nat, granted: bool): nat
  {
    if granted && tries > 0 then tries - 1 else tries
  }

  /** A product that stays within `c` bounds its factor by the quotient. */
  lemma QuotientBound(a: nat, b: nat, c: int)
    requires b > 0 && a * b <= c
    ensures a <= c / b
  {
    var q := c / b;
    assert c < q * b + b;
    assert (q + 1) * b == q * b + b;
    MulMonotone(a, q + 1, b);
  }

  lemma MulMonotone(x: int, y: int, b: nat)
    ensures x >= y ==> x * b >= y * b
  {
    if x >= y {
      assert x * b == y * b + (x - y) * b;
    }
  }

  /**
   * A loop that starts no earlier than `start` makes at most
   * ceil(timeout / interval) refused tries.
   */
  lemma FailedTriesBounded(start: int, timeout: nat, interval: nat, now: int, oracle: seq<Attempt>,
                           tries: nat, granted: bool, clock: int)
    requires interval > 0 && start <= now
    requires PolledToOutcome(start, timeout, interval, now, oracle, tries, granted, clock)
    ensures FailedTries(tries, granted) <= (timeout + interval - 1) / interval
  {
    var f := FailedTries(tries, granted);
    if f > 0 {
      // the last refused try was still made before the deadline
      var t := ClockAt(now, interval, oracle, f - 1);
      assert t - start < timeout;
      assert (f - 1) * interval <= timeout - 1;
      assert f * interval == (f - 1) * interval + interval;
      QuotientBound(f, interval, timeout + interval - 1);
    }
  }

  /** The outcome of a polling loop is fully determined by its inputs. */
  lemma PollOutcomeDeterministic(start: int, timeout: nat, interval: nat, now: int, oracle: seq<Attempt>,
                                 tries: nat, granted: bool, clock: int,
                                 tries': nat, granted': bool, clock': int)
    requires PolledToOutcome(start, timeout, interval, now, oracle, tries, granted, clock)
    requires PolledToOutcome(start, timeout, interval, now, oracle, tries', granted', clock')
    ensures tries == tries' && granted == granted' && clock == clock'
  {
    if tries < tries' {
      OutcomeNotShorter(start, timeout, interval, now, oracle, tries, granted, clock, tries', granted', clock');
    } else if tries' < tries {
      OutcomeNotShorter(start, timeout, interval, now, oracle, tries', granted', clock', tries, granted, clock);
    }
  }

  /** No loop ends strictly before another loop with the same inputs. */
  lemma OutcomeNotShorter(start: int, timeout: nat, interval: nat, now: int, oracle: seq<Attempt>,
                          tries: nat, granted: bool, clock: int,
                          tries': nat, granted': bool, clock': int)
    requires PolledToOutcome(start, timeout, interval, now, oracle, tries, granted, clock)
    requires PolledToOutcome(start, timeout, interval, now, oracle, tries', granted', clock')
    ensures tries' <= tries
  {
    if granted {
      // the shorter loop's granting try would have ended the longer one too
      assert AttemptAt(oracle, tries - 1).Granted?;
    } else {
      // the longer loop cannot try once the shorter one has seen the deadline
      assert ClockAt(now, interval, oracle, tries) - start >= timeout;
    }
  }

  /** A value whose deadline has already passed never tries again. */
  lemma ExpiredDeadlineNeverPolls(start: int, timeout: nat, interval: nat, now: int, oracle: seq<Attempt>,
                                  tries: nat, granted: bool, clock: int)
    requires PolledToOutcome(start, timeout, interval, now, oracle, tries, granted, clock)
    requires now - start >= timeout
    ensures tries == 0 && !granted && clock == now
  {
    assert ClockAt(now, interval, oracle, 0) == now;
  }

  class TransactionRetry {
    const timeout: nat := DEFAULT_TIMEOUT_MS
    const retryInterval: nat := DEFAULT_RETRY_INTERVAL_MS
    /** The clock reading at construction; later calls never move it. */
    const start: int

    /** `new`: captures the current clock once; timeout and interval are the defaults. */
    constructor (now: int)
      ensures start == now && timeout == 2000 && retryInterval == 50
    {
      start := now;
    }

    /**
     * The loop shared by every variant: try `kind` while the deadline has not
     * been reached, return on the first granted try, sleep after each refusal.
     * `tries` lists the request of every try made.
     */
    method Poll(kind: Kind, now: int, oracle: seq<Attempt>) returns (granted: bool, tries: seq<Kind>, clock: int)
      requires start <= now
      ensures forall i | 0 <= i < |tries| :: tries[i] == kind
      ensures PolledToOutcome(start, timeout, retryInterval, now, oracle, |tries|, granted, clock)
      ensures FailedTries(|tries|, granted) <= 40
    {
      granted, tries, clock := false, [], now;
      while clock - start < timeout
        invariant forall i | 0 <= i < |tries| :: tries[i] == kind
        invariant clock == ClockAt(now, retryInterval, oracle, |tries|)
        invariant forall i | 0 <= i < |tries| :: ClockAt(now, retryInterval, oracle, i) - start < timeout
        invariant forall i | 0 <= i < |tries| :: AttemptAt(oracle, i).Busy?
        decreases timeout - (clock - start)
      {
        var answer := AttemptAt(oracle, |tries|);
        tries := tries + [kind];
        if answer.Granted? {
          granted := true;
          FailedTriesBounded(start, timeout, retryInterval, now, oracle, |tries|, granted, clock);
          return;
        }
        clock := clock + retryInterval + answer.overrun;
      }
      FailedTriesBounded(start, timeout, retryInterval, now, oracle, |tries|, granted, clock);
    }

    /** `get_read_txn`: never fails; at the deadline one blocking `transact()`. */
    method GetReadTxn(now: int, oracle: seq<Attempt>) returns (txn: Txn, tries: seq<Kind>, fellBack: bool, clock: int)
      requires start <= now
      ensures txn == Txn(Read)
      ensures forall i | 0 <= i < |tries| :: tries[i] == Read
      ensures PolledToOutcome(start, timeout, retryInterval, now, oracle, |tries|, !fellBack, clock)
      ensures FailedTries(|tries|, !fellBack) <= 40
    {
      var granted;
      granted, tries, clock := Poll(Read, now, oracle);
      fellBack := !granted;
      txn := Txn(Read);
    }

    /** `try_get_write_txn`: a write without origin, or `AcquiredWriteTxnFail` at the deadline. */
    method TryGetWriteTxn(now: int, oracle: seq<Attempt>) returns (r: Result<Txn, CollabError>, tries: seq<Kind>, clock: int)
      requires start <= now
      ensures r.Success? ==> r.value == Txn(Write(None))
      ensures r.Failure? ==> r.error == AcquiredWriteTxnFail
      ensures forall i | 0 <= i < |tries| :: tries[i] == Write(None)
      ensures PolledToOutcome(start, timeout, retryInterval, now, oracle, |tries|, r.Success?, clock)
      ensures FailedTries(|tries|, r.Success?) <= 40
    {
      var granted;
      granted, tries, clock := Poll(Write(None), now, oracle);
      if granted {
        r := Success(Txn(Write(None)));
      } else {
        r := Failure(AcquiredWriteTxnFail);
      }
    }

    /**
     * `get_write_txn_with`: never fails; every try and the blocking fallback
     * at the deadline carry `origin`.
     */
    method GetWriteTxnWith(origin: Origin, now: int, oracle: seq<Attempt>)
      returns (txn: Txn, tries: seq<Kind>, fellBack: bool, clock: int)
      requires start <= now
      ensures txn == Txn(Write(Some(origin)))
      ensures forall i | 0 <= i < |tries| :: tries[i] == Write(Some(origin))
      ensures PolledToOutcome(start, timeout, retryInterval, now, oracle, |tries|, !fellBack, clock)
      ensures FailedTries(|tries|, !fellBack) <= 40
    {
      var granted;
      granted, tries, clock := Poll(Write(Some(origin)), now, oracle);
      fellBack := !granted;
      txn := Txn(Write(Some(origin)));
    }

    /** `try_get_write_txn_with`: every try carries `origin`; `AcquiredWriteTxnFail` at the deadline. */
    method TryGetWriteTxnWith(origin: Origin, now: int, oracle: seq<Attempt>)
      returns (r: Result<Txn, CollabError>, tries: seq<Kind>, clock: int)
      requires start <= now
      ensures r.Success? ==> r.value == Txn(Write(Some(origin)))
      ensures r.Failure? ==> r.error == AcquiredWriteTxnFail
      ensures forall i | 0 <= i < |tries| :: tries[i] == Write(Some(origin))
      ensures PolledToOutcome(start, timeout, retryInterval, now, oracle, |tries|, r.Success?, clock)
      ensures FailedTries(|tries|, r.Success?) <= 40
    {
      var granted;
      granted, tries, clock := Poll(Write(Some(origin)), now, oracle);
      if granted {
        r := Success(Txn(Write(Some(origin))));
      } else {
        r := Failure(AcquiredWriteTxnFail);
      }
    }
  }
}
