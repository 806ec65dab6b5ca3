/** The count-bounded retry strategy (`TillMaxRetryStrategy`). The retried logic is given
    by what its `k`-th call does (1-based): return, or throw an exception. The pauses
    between attempts are recorded as the intervals requested instead of being waited
    for, and the log lines are left out. */
module RetryPattern {
  import opened Wrappers

  /** The retried `Action`: `logic(k)` is the exception thrown by the `k`-th call, if
      any. A null action throws `NullReferenceException` on every call, which the retry
      loop catches like any other exception. */
  type Logic = Option<nat -> Option<Error>>

  function Call(logic: Logic, k: nat): Option<Error>
  {
    if logic.None? then Some(NullDereference) else logic.value(k)
  }

  /** Ticks per millisecond of a `TimeSpan`. */
  const TicksPerMillisecond: int := 10000

  /** The wait `Task.Delay(interval)` asks for, in whole milliseconds: the interval's
      total milliseconds truncated toward zero. */
  function DelayMilliseconds(interval: int): (ms: int)
    ensures interval >= 0 ==> 0 <= ms * TicksPerMillisecond <= interval < (ms + 1) * TicksPerMillisecond
    ensures interval < 0 ==> (ms - 1) * TicksPerMillisecond < interval <= ms * TicksPerMillisecond <= 0
  {
    if interval >= 0 then interval / TicksPerMillisecond else -((-interval) / TicksPerMillisecond)
  }

  /** What `Task.Delay(interval)` throws before it waits: `ArgumentOutOfRangeException`
      when the wait is below -1 ms (-1 meaning forever) or above `Int32.MaxValue` ms. */
  function DelayError(interval: int): (r: Option<Error>)
    ensures r.Some? ==> r.value == ArgumentOutOfRangeException
    ensures r.None? <==> -1 <= DelayMilliseconds(interval) <= 0x7FFF_FFFF
    ensures 0 <= interval <= 0x7FFF_FFFF ==> r.None?
    ensures interval <= -2 * TicksPerMillisecond ==> r.Some?
  {
    var ms := DelayMilliseconds(interval);
    if ms < -1 || ms > 0x7FFF_FFFF then Some(ArgumentOutOfRangeException) else None
  }

  /** The strategy's two read-only settings; `intervalBetweenRetries` in ticks. */
  datatype TillMaxRetryStrategy = TillMaxRetryStrategy(maxRetries: int, intervalBetweenRetries: int) {

    /** Calls `logic` until a call returns or `maxRetries` calls have been made; the last
        exception is rethrown when every call threw. A wait is requested after every
        failed call but the last; when the interval is out of `Task.Delay`'s range, its
        exception leaves the loop at the first wait instead. */
    method Retry(logic: Logic) returns (calls: nat, waits: seq<int>, outcome: Outcome)
      ensures maxRetries <= 0 ==> calls == 0 && waits == [] && outcome == Pass
      ensures maxRetries > 0 ==> 1 <= calls <= maxRetries
      ensures forall k | 1 <= k < calls :: Call(logic, k).Some?
      ensures calls > 0 ==> (outcome.Pass? <==> Call(logic, calls).None?)
      ensures outcome.Fail? && DelayError(intervalBetweenRetries).None? ==>
                calls == maxRetries && outcome == Fail(Call(logic, calls).value)
      ensures outcome.Fail? && calls == maxRetries ==> outcome == Fail(Call(logic, calls).value)
      ensures DelayError(intervalBetweenRetries).Some? ==> calls <= 1 && waits == []
      ensures DelayError(intervalBetweenRetries).Some? && maxRetries > 1 && Call(logic, 1).Some? ==>
                outcome == Fail(ArgumentOutOfRangeException)
      ensures calls > 0 && DelayError(intervalBetweenRetries).None? ==> |waits| == calls - 1
      ensures forall i | 0 <= i < |waits| :: waits[i] == intervalBetweenRetries
    {
      var retries := 0;
      calls, waits, outcome := 0, [], Pass;
      while retries < maxRetries
        invariant 0 <= retries && (maxRetries > 0 ==> retries <= maxRetries)
        invariant calls == retries && (retries > 0 ==> retries < maxRetries)
        invariant forall k | 1 <= k <= retries :: Call(logic, k).Some?
        invariant |waits| == retries
        invariant forall i | 0 <= i < |waits| :: waits[i] == intervalBetweenRetries
        invariant DelayError(intervalBetweenRetries).Some? ==> retries == 0
        invariant outcome == Pass
        decreases maxRetries - retries
      {
        retries := retries + 1;
        calls := retries;
        var thrown := Call(logic, retries);
        if thrown.None? {
          return;
        }
        if retries >= maxRetries {
          return calls, waits, Fail(thrown.value);
        }
        var delayError := DelayError(intervalBetweenRetries);
        if delayError.Some? {
          return calls, waits, Fail(delayError.value);
        }
        waits := waits + [intervalBetweenRetries];
      }
    }
  }

  /** Logic that always throws: it is called `maxRetries` times and its last exception
      comes out; a null action fails the same way with `NullReferenceException`. */
  method AlwaysThrowing(e: Error) returns (calls: nat, outcome: Outcome, nullCalls: nat, nullOutcome: Outcome)
    ensures calls == 3 && outcome == Fail(e)
    ensures nullCalls == 3 && nullOutcome == Fail(NullDereference)
  {
    var strategy := TillMaxRetryStrategy(3, 10);
    var waits;
    calls, waits, outcome := strategy.Retry(Some((k: nat) => Some(e)));
    nullCalls, waits, nullOutcome := strategy.Retry(None);
  }

  /** A negative interval of two milliseconds or more: the first failed call is followed
      by `Task.Delay`'s exception, and the logic is not called again. */
  method NegativeIntervalFailsAtFirstWait(e: Error) returns (calls: nat, waits: seq<int>, outcome: Outcome)
    ensures calls == 1 && waits == [] && outcome == Fail(ArgumentOutOfRangeException)
  {
    var strategy := TillMaxRetryStrategy(3, -20000);
    calls, waits, outcome := strategy.Retry(Some((k: nat) => Some(e)));
  }

  /** Logic that throws once then returns is called twice, with one wait between. */
  method SecondAttemptSucceeds(e: Error) returns (calls: nat, waits: seq<int>, outcome: Outcome)
    ensures calls == 2 && waits == [10] && outcome == Pass
  {
    var strategy := TillMaxRetryStrategy(5, 10);
    var logic: Logic := Some((k: nat) => if k == 1 then Some(e) else None);
    calls, waits, outcome := strategy.Retry(logic);
    assert Call(logic, 1).Some? && Call(logic, 2).None?;
    assert waits == [waits[0]];
  }
}
