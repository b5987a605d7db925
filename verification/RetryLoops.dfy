/**
 Retrying: the loop of packages/common/src/system/retry-helper.ts, and the two levels of it in one client
 request, where every attempt first acquires a token with retries of its own (web-insights-storage-client.ts
 over web-insights-api-credential.ts).

 An action is given by its outcome at each attempt. The error handlers log and do not fail.
 */
module RetryLoops {
  import opened Wrappers

  datatype Attempt<+T, +E> = Success(value: T) | Failure(error: E)

  /** A loop without attempts throws undefined. */
  datatype Outcome<+T, +E> = Returned(value: T) | Threw(error: Option<E>)

  type Action<!T, !E> = nat -> Attempt<T, E>

  // ----- What the loop means -----

  /** The first attempt from i on that succeeds, or the limit. */
  function FirstSuccess<T, E>(action: Action<T, E>, i: nat, limit: nat): (k: nat)
    requires i <= limit
    ensures i <= k <= limit
    ensures k < limit ==> action(k).Success?
    ensures forall j: nat :: i <= j < k ==> action(j).Failure?
    decreases limit - i
  {
    if i == limit || action(i).Success? then i else FirstSuccess(action, i + 1, limit)
  }

  function Limit(maxRetryCount: int): nat { if maxRetryCount > 0 then maxRetryCount else 0 }

  /** The number of attempts made. */
  function Attempts<T, E>(action: Action<T, E>, maxRetryCount: int): nat
  {
    var k := FirstSuccess(action, 0, Limit(maxRetryCount));
    if k < Limit(maxRetryCount) then k + 1 else k
  }

  function OutcomeOf<T, E>(action: Action<T, E>, maxRetryCount: int): Outcome<T, E>
  {
    var n := Limit(maxRetryCount);
    var k := FirstSuccess(action, 0, n);
    if k < n then Returned(action(k).value)
    else if n == 0 then Threw(None)
    else Threw(Some(action(n - 1).error))
  }

  function Pause(retryIntervalMilliseconds: int): nat
  {
    if retryIntervalMilliseconds > 0 then retryIntervalMilliseconds else 0
  }

  /** The time slept in k pauses: each is one interval longer than the one before. */
  function Pauses(k: nat, retryIntervalMilliseconds: int): nat
  {
    if k == 0 then 0 else Pauses(k - 1, retryIntervalMilliseconds) + Pause(retryIntervalMilliseconds) * k
  }

  lemma {:induction false} PausesClosed(k: nat, retryIntervalMilliseconds: int)
    ensures 2 * Pauses(k, retryIntervalMilliseconds) == Pause(retryIntervalMilliseconds) * (k * (k + 1))
  {
    if k > 0 {
      PausesClosed(k - 1, retryIntervalMilliseconds);
      TriangleStep(Pause(retryIntervalMilliseconds), k);
    }
  }

  lemma TriangleStep(p: int, k: int)
    ensures p * ((k - 1) * k) + 2 * (p * k) == p * (k * (k + 1))
  {
    assert k * (k + 1) == (k - 1) * k + 2 * k;
  }

  lemma {:induction false} PausesMonotone(a: nat, b: nat, retryIntervalMilliseconds: int)
    requires a <= b
    ensures Pauses(a, retryIntervalMilliseconds) <= Pauses(b, retryIntervalMilliseconds)
  {
    if a < b {
      PausesMonotone(a, b - 1, retryIntervalMilliseconds);
    }
  }

  /** The failed attempts that are followed by another: those the error handler sees and a pause follows. */
  function Retries<T, E>(action: Action<T, E>, maxRetryCount: int): nat
  {
    var a := Attempts(action, maxRetryCount);
    if a == 0 then 0 else a - 1
  }

  function Slept<T, E>(action: Action<T, E>, maxRetryCount: int, retryIntervalMilliseconds: int): nat
  {
    Pauses(Retries(action, maxRetryCount), retryIntervalMilliseconds)
  }

  /** The loop returns the first success or throws the last error; it calls the handler with each earlier error, once. */
  method ExecuteWithRetries<T, E>(action: Action<T, E>, maxRetryCount: int, retryIntervalMilliseconds: int)
    returns (outcome: Outcome<T, E>, attempts: nat, handled: seq<E>, slept: nat)
    ensures outcome == OutcomeOf(action, maxRetryCount)
    ensures attempts == Attempts(action, maxRetryCount)
    ensures |handled| == Retries(action, maxRetryCount)
    ensures forall j :: 0 <= j < |handled| ==> action(j) == Failure(handled[j])
    ensures slept == Slept(action, maxRetryCount, retryIntervalMilliseconds)
  {
    var lastError: Option<E> := None;
    attempts, handled, slept := 0, [], 0;
    ghost var n := Limit(maxRetryCount);
    var i := 0;
    while i < maxRetryCount
      invariant 0 <= i <= n && attempts == i
      invariant forall j: nat :: j < i ==> action(j).Failure?
      invariant FirstSuccess(action, 0, n) == FirstSuccess(action, i, n)
      invariant lastError == if i == 0 then None else Some(action(i - 1).error)
      invariant |handled| == if i == 0 then 0 else if i < n then i else n - 1
      invariant forall j :: 0 <= j < |handled| ==> action(j) == Failure(handled[j])
      invariant slept == Pauses(|handled|, retryIntervalMilliseconds)
    {
      attempts := attempts + 1;
      match action(i)
      case Success(value) =>
        return Returned(value), attempts, handled, slept;
      case Failure(error) =>
        lastError := Some(error);
        if i < maxRetryCount - 1 {
          handled := handled + [error];
          if retryIntervalMilliseconds > 0 {
            slept := slept + retryIntervalMilliseconds * (i + 1);
          }
        }
      i := i + 1;
    }
    outcome := Threw(lastError);
  }

  /** The longest the loop can sleep: every attempt failed. */
  function MaxSleep(maxRetryCount: nat, retryIntervalMilliseconds: int): nat
  {
    Pauses(if maxRetryCount == 0 then 0 else maxRetryCount - 1, retryIntervalMilliseconds)
  }

  lemma MaxSleepClosed(n: nat, retryIntervalMilliseconds: int)
    ensures 2 * MaxSleep(n, retryIntervalMilliseconds) == Pause(retryIntervalMilliseconds) * ((n - 1) * n)
  {
    if n > 0 {
      PausesClosed(n - 1, retryIntervalMilliseconds);
    }
  }

  ghost predicate AllFail<T, E>(action: Action<T, E>, n: nat)
  {
    forall j: nat :: j < n ==> action(j).Failure?
  }

  /** At most the limit of attempts, reached when every attempt fails; it then throws the last error. */
  lemma AttemptsBounded<T, E>(action: Action<T, E>, n: nat)
    ensures Attempts(action, n) <= n
    ensures AllFail(action, n) ==>
              Attempts(action, n) == n && OutcomeOf(action, n) == Threw(if n == 0 then None else Some(action(n - 1).error))
  {
  }

  /** At most interval * n(n-1)/2 slept, reached when every attempt fails. */
  lemma SleepBounded<T, E>(action: Action<T, E>, n: nat, retryIntervalMilliseconds: int)
    ensures Slept(action, n, retryIntervalMilliseconds) <= MaxSleep(n, retryIntervalMilliseconds)
    ensures AllFail(action, n) ==> Slept(action, n, retryIntervalMilliseconds) == MaxSleep(n, retryIntervalMilliseconds)
  {
    AttemptsBounded(action, n);
    if n > 0 {
      PausesMonotone(Retries(action, n), n - 1, retryIntervalMilliseconds);
    }
  }

  lemma ScaleBound(a: nat, b: nat, x: nat)
    requires a <= b
    ensures a * x <= b * x
  {
  }

  // ----- Two levels -----

  /** One client request: token acquisition inside every attempt, then the signed request. */
  datatype Client<!Token, !T, !E> = Client(
    tokens: nat -> Action<Token, E>, // the token outcomes within each outer attempt
    request: (nat, Token) -> Attempt<T, E>, // the request's outcome at an outer attempt, with its token
    undefinedError: E, // what the helper makes of an undefined error
    maxTokenAttempts: int, tokenInterval: int,
    maxRetryCount: int, retryInterval: int)
  {
    /** The outer attempt: signRequest, then the request. */
    function AttemptAt(i: nat): Attempt<T, E>
    {
      match OutcomeOf(tokens(i), maxTokenAttempts)
      case Returned(token) => request(i, token)
      case Threw(None) => Failure(undefinedError)
      case Threw(Some(error)) => Failure(error)
    }

    function Outer(): Action<T, E>
    {
      (i: nat) => AttemptAt(i)
    }

    function Result(): Outcome<T, E>
    {
      OutcomeOf(Outer(), maxRetryCount)
    }

    function OuterAttempts(): nat
    {
      Attempts(Outer(), maxRetryCount)
    }

    /** Token attempts over the first outer attempts. */
    function TokenAttempts(outer: nat): nat
    {
      if outer == 0 then 0 else TokenAttempts(outer - 1) + Attempts(tokens(outer - 1), maxTokenAttempts)
    }

    function TokenSleep(outer: nat): nat
    {
      if outer == 0 then 0 else TokenSleep(outer - 1) + Slept(tokens(outer - 1), maxTokenAttempts, tokenInterval)
    }

    function TotalSleep(): nat
    {
      TokenSleep(OuterAttempts()) + Slept(Outer(), maxRetryCount, retryInterval)
    }
  }

  ghost predicate NoTokenEver<Token, T, E>(c: Client<Token, T, E>, outer: nat, n: nat)
  {
    forall i: nat :: i < outer ==> AllFail(c.tokens(i), n)
  }

  lemma {:induction false} TokenAttemptsBounded<Token, T, E>(c: Client<Token, T, E>, outer: nat)
    requires c.maxTokenAttempts >= 0
    ensures c.TokenAttempts(outer) <= outer * c.maxTokenAttempts
    ensures NoTokenEver(c, outer, c.maxTokenAttempts) ==> c.TokenAttempts(outer) == outer * c.maxTokenAttempts
  {
    if outer > 0 {
      TokenAttemptsBounded(c, outer - 1);
      AttemptsBounded(c.tokens(outer - 1), c.maxTokenAttempts);
      OneMore(outer, c.maxTokenAttempts);
    }
  }

  lemma {:induction false} TokenSleepBounded<Token, T, E>(c: Client<Token, T, E>, outer: nat, most: nat)
    requires c.maxTokenAttempts >= 0 && most == MaxSleep(c.maxTokenAttempts, c.tokenInterval)
    ensures c.TokenSleep(outer) <= outer * most
    ensures NoTokenEver(c, outer, c.maxTokenAttempts) ==> c.TokenSleep(outer) == outer * most
  {
    if outer > 0 {
      TokenSleepBounded(c, outer - 1, most);
      SleepBounded(c.tokens(outer - 1), c.maxTokenAttempts, c.tokenInterval);
      OneMore(outer, most);
    }
  }

  lemma OneMore(k: int, x: int)
    ensures k * x == (k - 1) * x + x
  {
  }

  /** No token in any attempt: the outer loop fails every time too, with the last token error of each attempt. */
  lemma NoTokenNoAnswer<Token, T, E>(c: Client<Token, T, E>, m: nat, n: nat)
    requires c.maxRetryCount == m && c.maxTokenAttempts == n && NoTokenEver(c, m, n)
    ensures AllFail(c.Outer(), m) && c.OuterAttempts() == m
    ensures m > 0 && n > 0 ==> c.Result() == Threw(Some(c.tokens(m - 1)(n - 1).error))
  {
    forall i: nat | i < m
      ensures c.Outer()(i).Failure? && (n > 0 ==> c.Outer()(i).error == c.tokens(i)(n - 1).error)
    {
      assert AllFail(c.tokens(i), n);
      AttemptsBounded(c.tokens(i), n);
      assert c.Outer()(i) == c.AttemptAt(i);
    }
    AttemptsBounded(c.Outer(), m);
  }

  /**
   One request makes at most m*n token attempts and sleeps at most m*s*n(n-1)/2 + r*m(m-1)/2, for outer limits
   (m, r) and token limits (n, s). Both bounds are reached when no token is ever granted.
   */
  lemma NestedRetries<Token, T, E>(c: Client<Token, T, E>, m: nat, n: nat)
    requires c.maxRetryCount == m && c.maxTokenAttempts == n
    ensures c.TokenAttempts(c.OuterAttempts()) <= m * n
    ensures c.TotalSleep() <= m * MaxSleep(n, c.tokenInterval) + MaxSleep(m, c.retryInterval)
    ensures NoTokenEver(c, m, n) ==>
              && c.TokenAttempts(c.OuterAttempts()) == m * n
              && c.TotalSleep() == m * MaxSleep(n, c.tokenInterval) + MaxSleep(m, c.retryInterval)
  {
    var a := c.OuterAttempts();
    AttemptsBounded(c.Outer(), m);
    SleepBounded(c.Outer(), m, c.retryInterval);
    TokenAttemptsBounded(c, a);
    TokenSleepBounded(c, a, MaxSleep(n, c.tokenInterval));
    ScaleBound(a, m, n);
    ScaleBound(a, m, MaxSleep(n, c.tokenInterval));
    if NoTokenEver(c, m, n) {
      NoTokenNoAnswer(c, m, n);
    }
  }

  /** The i-th attempt gets its token at the j-th token attempt. */
  ghost predicate GetsToken<Token, T, E>(c: Client<Token, T, E>, i: nat, j: nat)
  {
    j < c.maxTokenAttempts && c.tokens(i)(j).Success? && forall k: nat :: k < j ==> c.tokens(i)(k).Failure?
  }

  /** The i-th attempt fails: without a token, or with one that the request fails with. */
  ghost predicate FailsAt<Token, T, E>(c: Client<Token, T, E>, i: nat)
  {
    || (c.maxTokenAttempts >= 0 && AllFail(c.tokens(i), c.maxTokenAttempts))
    || exists j :: GetsToken(c, i, j) && c.request(i, c.tokens(i)(j).value).Failure?
  }

  lemma AttemptWithToken<Token, T, E>(c: Client<Token, T, E>, i: nat, j: nat)
    requires GetsToken(c, i, j)
    ensures c.Outer()(i) == c.request(i, c.tokens(i)(j).value)
  {
    assert c.Outer()(i) == c.AttemptAt(i);
  }

  lemma AttemptFails<Token, T, E>(c: Client<Token, T, E>, i: nat)
    requires FailsAt(c, i)
    ensures c.Outer()(i).Failure?
  {
    assert c.Outer()(i) == c.AttemptAt(i);
    if j :| GetsToken(c, i, j) && c.request(i, c.tokens(i)(j).value).Failure? {
      AttemptWithToken(c, i, j);
    }
  }

  /**
   A request whose k-th attempt is the first to succeed returns what the request answers with the first token granted
   in that attempt, after exactly k + 1 attempts.
   */
  lemma FirstSuccessWins<Token, T, E>(c: Client<Token, T, E>, k: nat, j: nat)
    requires k < c.maxRetryCount && GetsToken(c, k, j) && c.request(k, c.tokens(k)(j).value).Success?
    requires forall i: nat :: i < k ==> FailsAt(c, i)
    ensures c.Result() == Returned(c.request(k, c.tokens(k)(j).value).value) && c.OuterAttempts() == k + 1
  {
    AttemptWithToken(c, k, j);
    forall i: nat | i < k ensures c.Outer()(i).Failure? {
      AttemptFails(c, i);
    }
    var first := FirstSuccess(c.Outer(), 0, c.maxRetryCount);
    assert first == k;
  }
}
