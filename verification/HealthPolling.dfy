/**
 The release gate of packages/health-client/src/deployment-health-checker.ts: poll the health report until it says
 `pass` or the time is up. An evaluation fixes how each request is answered and how long each request and each wait
 takes; the clock is read in milliseconds.
 */
module HealthPolling {

  datatype TestRunResult = Undefined | Pass | Fail | Warn

  datatype Report = Failed | Answer(statusCode: int, healthStatus: TestRunResult)

  datatype Verdict = Passed | TimedOut

  function MinutesToMilliseconds(minutes: real): real { minutes * 60000.0 }

  datatype Evaluation = Evaluation(
    testTimeoutInMinutes: real,
    waitTimeBeforeEvaluationInMinutes: real,
    evaluationIntervalInMinutes: real,
    report: nat -> Report, // the answer to each poll
    requestTime: nat -> real, // how long each poll takes
    waited: (nat, real) -> real) // how long the wait before each poll takes, for the time it asks for
  {
    function Interval(): real { MinutesToMilliseconds(evaluationIntervalInMinutes) }

    function Timeout(): real { MinutesToMilliseconds(testTimeoutInMinutes) }

    /** The clock does not run backwards and a wait lasts at least as long as asked. */
    ghost predicate Clock()
    {
      && (forall k: nat :: requestTime(k) >= 0.0)
      && (forall k: nat, t: real :: waited(k, t) >= t)
    }

    predicate Passes(k: nat)
    {
      report(k) == Answer(200, Pass)
    }

    /** The time from the start of polling to the timeout check behind poll k. */
    function Elapsed(k: nat): real
    {
      (if k == 0 then 0.0 else Elapsed(k - 1) + waited(k, Interval())) + requestTime(k)
    }

    predicate Expired(k: nat) { Elapsed(k) > Timeout() }

    /** Polling goes on after poll k. */
    predicate GoesOn(k: nat) { !Passes(k) && !Expired(k) }

    /** The run made exactly these polls and came to this verdict. */
    ghost predicate Ends(polls: nat, verdict: Verdict)
    {
      && polls > 0
      && (forall k: nat :: k < polls - 1 ==> GoesOn(k))
      && match verdict
         case Passed => Passes(polls - 1)
         case TimedOut => !Passes(polls - 1) && Expired(polls - 1)
    }

    /** floor(timeout / interval) + 2, or a single poll when the timeout is negative */
    function MostPolls(): nat
      requires Interval() > 0.0
    {
      if Timeout() < 0.0 then 1 else WholeIntervals(Timeout(), Interval()) + 2
    }

    /** The clock starts behind the first wait, the verdict is asked of the latest status read. */
    method Run(begin: real) returns (verdict: Verdict, polls: nat, end: real)
      requires Clock() && Interval() > 0.0
      ensures Ends(polls, verdict)
      ensures if verdict == Passed then report(polls - 1) == Answer(200, Pass)
              else report(polls - 1) != Answer(200, Pass) && Elapsed(polls - 1) > testTimeoutInMinutes * 60000.0
      ensures polls <= MostPolls()
      ensures end == begin + waited(0, waitTimeBeforeEvaluationInMinutes * 60000.0) + Elapsed(polls - 1)
    {
      var now := begin + waited(0, MinutesToMilliseconds(waitTimeBeforeEvaluationInMinutes));
      var healthStatus := Undefined;
      var startTime := now;
      polls := 0;
      while healthStatus != Pass
        invariant healthStatus == Pass <==> polls > 0 && Passes(polls - 1)
        invariant forall k: nat :: k < polls - 1 ==> GoesOn(k)
        invariant polls > 0 && healthStatus != Pass ==> GoesOn(polls - 1)
        invariant polls == 0 ==> now == startTime
        invariant polls > 0 ==>
            now == startTime + Elapsed(polls - 1) + if healthStatus == Pass then 0.0 else waited(polls, Interval())
        invariant polls <= MostPolls() && (polls == MostPolls() ==> healthStatus == Pass)
        decreases MostPolls() - polls, healthStatus != Pass
      {
        match report(polls) {
          case Answer(200, status) => healthStatus := status;
          case _ =>
        }
        now := now + requestTime(polls);
        polls := polls + 1;
        if healthStatus != Pass {
          if now - startTime > Timeout() {
            return TimedOut, polls, now;
          }
          now := now + waited(polls, Interval());
          GoingOnIsEarly(this, polls - 1);
        }
      }
      return Passed, polls, now;
    }
  }

  /** How many intervals fit into the timeout. */
  function WholeIntervals(timeout: real, interval: real): nat
    requires timeout >= 0.0 && interval > 0.0
  {
    Scale(0.0, timeout / interval, interval);
    (timeout / interval).Floor
  }

  lemma WholeIntervalsFit(timeout: real, interval: real, k: nat)
    requires timeout >= 0.0 && interval > 0.0
    ensures k as real * interval <= timeout <==> k <= WholeIntervals(timeout, interval)
  {
    var q := timeout / interval;
    Scale(k as real, q, interval);
    assert q * interval == timeout;
  }

  lemma Scale(a: real, b: real, x: real)
    requires x > 0.0
    ensures a <= b <==> a * x <= b * x
    ensures a < b <==> a * x < b * x
  {
    if a < b {
      assert (b - a) * x > 0.0;
    }
    if b < a {
      assert (a - b) * x > 0.0;
    }
  }

  lemma {:induction false} ElapsedGrows(e: Evaluation, k: nat)
    requires e.Clock()
    ensures e.Elapsed(k) >= k as real * e.Interval()
  {
    if k > 0 {
      ElapsedGrows(e, k - 1);
      assert k as real * e.Interval() == (k - 1) as real * e.Interval() + e.Interval();
    }
  }

  /** Polling goes on only while whole intervals remain. */
  lemma GoingOnIsEarly(e: Evaluation, k: nat)
    requires e.Clock() && e.Interval() > 0.0 && e.GoesOn(k)
    ensures e.Timeout() >= 0.0 && k + 1 < e.MostPolls()
  {
    ElapsedGrows(e, k);
    Scale(0.0, k as real, e.Interval());
    WholeIntervalsFit(e.Timeout(), e.Interval(), k);
  }

  /** Polls and verdict are determined by the evaluation. */
  lemma OneEnd(e: Evaluation, polls: nat, verdict: Verdict, polls': nat, verdict': Verdict)
    requires e.Ends(polls, verdict) && e.Ends(polls', verdict')
    ensures polls == polls' && verdict == verdict'
  {
    assert polls < polls' ==> e.GoesOn(polls - 1);
    assert polls' < polls ==> e.GoesOn(polls' - 1);
  }

  /**
   A release passes exactly when some poll reports it and no earlier timeout check had expired: a report behind the
   timeout still passes when it is the first poll after an unexpired check.
   */
  lemma PassesIffSeenInTime(e: Evaluation, polls: nat, verdict: Verdict)
    requires e.Ends(polls, verdict)
    ensures verdict == Passed <==>
            exists k: nat :: e.report(k) == Answer(200, Pass) && forall j: nat :: j < k ==> !e.Expired(j)
  {
    if verdict == Passed {
      forall j: nat | j < polls - 1 ensures !e.Expired(j) {
        assert e.GoesOn(j);
      }
    } else {
      assert e.Expired(polls - 1);
      forall k: nat | k < polls ensures e.report(k) != Answer(200, Pass) {
        assert k < polls - 1 ==> e.GoesOn(k);
      }
    }
  }

  /** A clock that loses no time and a report that never passes. */
  ghost predicate Exact(e: Evaluation)
  {
    && (forall k: nat :: e.requestTime(k) == 0.0 && !e.Passes(k))
    && (forall k: nat, t: real :: e.waited(k, t) == t)
  }

  lemma {:induction false} ExactElapsed(e: Evaluation, k: nat)
    requires Exact(e)
    ensures e.Elapsed(k) == k as real * e.Interval() && e.Interval() == e.evaluationIntervalInMinutes * 60000.0
  {
    if k > 0 {
      ExactElapsed(e, k - 1);
      assert k as real * e.Interval() == (k - 1) as real * e.Interval() + e.Interval();
    }
  }

  /** The bound on the polls is reached. */
  lemma BoundIsReached(e: Evaluation)
    requires Exact(e) && e.Interval() > 0.0
    ensures e.Ends(e.MostPolls(), TimedOut)
  {
    var n := e.MostPolls() - 1;
    ExactElapsed(e, n);
    if e.Timeout() >= 0.0 {
      WholeIntervalsFit(e.Timeout(), e.Interval(), n);
      forall k: nat | k < n ensures e.GoesOn(k) {
        ExactElapsed(e, k);
        WholeIntervalsFit(e.Timeout(), e.Interval(), k);
      }
    }
  }

  /** Such a run ends exactly when the interval is positive or the timeout is negative. */
  lemma EndsIffIntervalPositive(e: Evaluation)
    requires Exact(e)
    ensures (exists polls: nat, verdict :: e.Ends(polls, verdict)) <==> e.Interval() > 0.0 || e.Timeout() < 0.0
  {
    if e.Interval() > 0.0 {
      BoundIsReached(e);
    } else if e.Timeout() < 0.0 {
      assert e.Ends(1, TimedOut);
    } else {
      forall k: nat ensures e.GoesOn(k) {
        ExactElapsed(e, k);
        assert k as real * e.Interval() <= 0.0 <= e.Timeout();
      }
      assert forall polls: nat, verdict | e.Ends(polls, verdict) :: !e.GoesOn(polls - 1);
    }
  }
}
