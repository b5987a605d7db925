/**
 The managed-identity token cache (packages/azure-services/src/credentials/azure-managed-credential.ts) as
 an interleaving of callers, requests in flight and a clock.

 Assumed: the mutex admits one caller at a time; node-cache returns an entry until its expiry time has
 passed, and keeps an entry stored with a time to live of 0 for ever. Clock times are in milliseconds.
 */
module TokenCache {
  import opened Wrappers
  import T = Transitions

  /** The cache check period, in seconds. */
  const CACHE_CHECK_PERIOD: int := 600
  /** How much earlier than the token the cached entry expires, in seconds. */
  const MARGIN: int := CACHE_CHECK_PERIOD * 2

  type Url = string

  /** A token, issued at a time and valid for a number of seconds from then. */
  datatype Token = Token(issuedAt: int, expiresIn: int)

  /** A token received for a URL. */
  datatype Fetch = Fetch(url: Url, token: Token, receivedAt: int)
  {
    function ExpiresAt(): int { token.issuedAt + token.expiresIn * 1000 }

    /** How long the answer travelled after the token was issued. */
    function Latency(): int { receivedAt - token.issuedAt }

    /** When its cache entry runs out; None when it never does. */
    function CachedUntil(): Option<int>
    {
      if token.expiresIn == MARGIN then None else Some(receivedAt + (token.expiresIn - MARGIN) * 1000)
    }
  }

  datatype Entry = Entry(fetch: Fetch, until: Option<int>)

  /** NodeCache.get */
  function Lookup(cache: map<Url, Entry>, url: Url, now: int): Option<Fetch>
  {
    if url in cache && (cache[url].until.Some? ==> cache[url].until.value >= now) then Some(cache[url].fetch) else None
  }

  /** NodeCache.set with a time to live in seconds. */
  function Store(cache: map<Url, Entry>, fetch: Fetch, ttl: int): map<Url, Entry>
  {
    cache[fetch.url := Entry(fetch, if ttl == 0 then None else Some(fetch.receivedAt + ttl * 1000))]
  }

  class AzureManagedCredential {
    var tokenCache: map<Url, Entry>

    constructor ()
      ensures tokenCache == map[]
    {
      tokenCache := map[];
    }

    /** One caller inside the mutex: the cached token if it is still kept, otherwise the one the service answers with. */
    method GetMsiToken(url: Url, now: int, answer: Option<Fetch>) returns (token: Option<Token>)
      requires answer.Some? ==> answer.value.url == url && now <= answer.value.receivedAt
      modifies this
      ensures match Lookup(old(tokenCache), url, now)
              case Some(hit) => token == Some(hit.token) && tokenCache == old(tokenCache)
              case None =>
                if answer.None? then token == None && tokenCache == old(tokenCache)
                else token == Some(answer.value.token) && url in tokenCache
                     && tokenCache == old(tokenCache)[url := Entry(answer.value, answer.value.CachedUntil())]
    {
      var cached := Lookup(tokenCache, url, now);
      if cached.Some? {
        return Some(cached.value.token);
      }
      if answer.None? {
        return None; // the request failed or had no body
      }
      tokenCache := Store(tokenCache, answer.value, answer.value.token.expiresIn - CACHE_CHECK_PERIOD * 2);
      token := Some(answer.value.token);
    }
  }

  // ----- Any number of callers -----

  datatype Phase =
    | Waiting(url: Url)
    | Checking(url: Url)
    | Fetching(url: Url, since: int)

  /** A caller asked for a URL and was given a token. */
  datatype Served = Served(url: Url, fetch: Fetch, at: int)

  datatype State = State(
    now: int,
    cache: map<Url, Entry>,
    owner: Option<nat>,
    callers: map<nat, Phase>,
    served: seq<Served>,
    fetched: seq<Fetch>,
    called: nat, // how many callers there have been
    rejected: nat) // and how many were given an error

  datatype Event =
    | Call(caller: nat, url: Url)
    | Enter(caller: nat)
    | Look(caller: nat)
    | Answer(caller: nat, token: Token)
    | Reject(caller: nat)
    | Tick(ms: nat)

  predicate Enabled(st: State, ev: Event)
  {
    match ev
    case Call(c, url) => c !in st.callers
    case Enter(c) => st.owner.None? && c in st.callers && st.callers[c].Waiting?
    case Look(c) => c in st.callers && st.callers[c].Checking?
    case Answer(c, token) =>
      // the token is issued while the request is in flight
      c in st.callers && st.callers[c].Fetching? && st.callers[c].since <= token.issuedAt <= st.now
    case Reject(c) => c in st.callers && st.callers[c].Fetching?
    case Tick(ms) => true
  }

  function Step(st: State, ev: Event): State
    requires Enabled(st, ev)
  {
    match ev
    case Call(c, url) => st.(callers := st.callers[c := Waiting(url)], called := st.called + 1)
    case Enter(c) => st.(owner := Some(c), callers := st.callers[c := Checking(st.callers[c].url)])
    case Look(c) =>
      var hit := Lookup(st.cache, st.callers[c].url, st.now);
      if hit.Some? then
        st.(owner := None, callers := st.callers - {c}, served := st.served + [Served(st.callers[c].url, hit.value, st.now)])
      else st.(callers := st.callers[c := Fetching(st.callers[c].url, st.now)])
    case Answer(c, token) =>
      var fetch := Fetch(st.callers[c].url, token, st.now);
      st.(cache := Store(st.cache, fetch, token.expiresIn - MARGIN),
          owner := None, callers := st.callers - {c},
          served := st.served + [Served(fetch.url, fetch, st.now)], fetched := st.fetched + [fetch])
    case Reject(c) => st.(owner := None, callers := st.callers - {c}, rejected := st.rejected + 1)
    case Tick(ms) => st.(now := st.now + ms)
  }

  const INITIAL := State(0, map[], None, map[], [], [], 0, 0)

  ghost predicate Runs(events: seq<Event>, st: State)
  {
    T.Runs(INITIAL, Moves, events, st)
  }

  ghost predicate Reachable(st: State)
  {
    T.Reachable(INITIAL, Moves, st)
  }

  predicate Moves(before: State, ev: Event, after: State)
  {
    Enabled(before, ev) && after == Step(before, ev)
  }

  // ----- What every step keeps -----

  predicate InFlight(st: State, c: nat) { c in st.callers && st.callers[c].Fetching? }

  /** The caller that checks the cache or fetches is the one that owns the mutex, and nobody else owns it. */
  ghost predicate Exclusive(st: State)
  {
    && (forall c :: c in st.callers && !st.callers[c].Waiting? ==> st.owner == Some(c))
    && (st.owner.Some? ==> st.owner.value in st.callers && !st.callers[st.owner.value].Waiting?)
  }

  /** Every caller is still there, was given a token, or was given an error. */
  predicate Answered(st: State)
  {
    st.called == |st.callers| + |st.served| + st.rejected
  }

  /** A served token was fetched for its URL and, but for the bad lifetime, has the margin or its whole life left, less the latency. */
  predicate GoodService(st: State, s: Served)
  {
    && s.fetch in st.fetched && s.fetch.url == s.url
    && (s.fetch.token.expiresIn != MARGIN ==>
          s.fetch.ExpiresAt() - s.at >= (if s.fetch.token.expiresIn < MARGIN then s.fetch.token.expiresIn else MARGIN) * 1000 - s.fetch.Latency())
  }

  predicate GoodEntry(st: State, url: Url)
    requires url in st.cache
  {
    var f := st.cache[url].fetch;
    f.url == url && f in st.fetched && st.cache[url].until == f.CachedUntil() && f.receivedAt <= st.now
  }

  predicate Expired(f: Fetch, now: int)
  {
    f.CachedUntil().Some? && f.CachedUntil().value < now
  }

  /** Each fetched token is the cached one of its URL, or its entry has run out. */
  predicate Covered(st: State, f: Fetch)
  {
    (f.url in st.cache && st.cache[f.url].until == f.CachedUntil()) || Expired(f, st.now)
  }

  /** Fetches for one URL: the later one begins after the entry of the earlier one has run out. */
  ghost predicate Spaced(st: State)
  {
    forall i, j :: 0 <= i < j < |st.fetched| && st.fetched[i].url == st.fetched[j].url ==>
      Expired(st.fetched[i], st.fetched[j].receivedAt)
  }

  /** While a request is in flight, every earlier entry of its URL has run out. */
  ghost predicate Justified(st: State, c: nat)
    requires InFlight(st, c)
  {
    && st.callers[c].since <= st.now
    && forall i :: 0 <= i < |st.fetched| && st.fetched[i].url == st.callers[c].url ==>
         Expired(st.fetched[i], st.callers[c].since)
  }

  ghost predicate Inv(st: State)
  {
    && Exclusive(st) && Answered(st)
    && Spaced(st)
    && (forall i :: 0 <= i < |st.served| ==> GoodService(st, st.served[i]))
    && (forall url :: url in st.cache ==> GoodEntry(st, url))
    && (forall i :: 0 <= i < |st.fetched| ==> Covered(st, st.fetched[i]))
    && (forall c :: InFlight(st, c) ==> Justified(st, c))
  }

  lemma StepKeepsInv(st: State, ev: Event)
    requires Inv(st) && Enabled(st, ev)
    ensures Inv(Step(st, ev))
  {
    match ev
    case Look(c) => LookKeepsInv(st, c);
    case Answer(c, token) => AnswerKeepsInv(st, c, token);
    case Tick(ms) => TickKeepsInv(st, ms);
    case Call(c, url) => MoveKeepsInv(st, ev);
    case Enter(c) => MoveKeepsInv(st, ev);
    case Reject(c) => MoveKeepsInv(st, ev);
  }

  lemma MoveKeepsInv(st: State, ev: Event)
    requires Inv(st) && Enabled(st, ev) && (ev.Call? || ev.Enter? || ev.Reject?)
    ensures Inv(Step(st, ev))
  {
    MoveKeepsOwner(st, ev);
    CallersKeepInv(st, Step(st, ev));
  }

  lemma MoveKeepsOwner(st: State, ev: Event)
    requires Exclusive(st) && Answered(st) && Enabled(st, ev) && (ev.Call? || ev.Enter? || ev.Reject?)
    ensures Exclusive(Step(st, ev)) && Answered(Step(st, ev))
  {
    if ev.Reject? {
      assert st.owner == Some(ev.caller);
    }
  }

  /** Steps that only move callers, and put no new request in flight. */
  lemma CallersKeepInv(st: State, next: State)
    requires Inv(st) && Exclusive(next) && Answered(next)
    requires next.now == st.now && next.cache == st.cache && next.served == st.served && next.fetched == st.fetched
    requires forall c :: InFlight(next, c) ==> InFlight(st, c) && next.callers[c] == st.callers[c]
    ensures Inv(next)
  {
    forall i | 0 <= i < |next.served| ensures GoodService(next, next.served[i]) { assert GoodService(st, st.served[i]); }
    forall url | url in next.cache ensures GoodEntry(next, url) { assert GoodEntry(st, url); }
    forall i | 0 <= i < |next.fetched| ensures Covered(next, next.fetched[i]) { assert Covered(st, st.fetched[i]); }
    forall c | InFlight(next, c) ensures Justified(next, c) { assert Justified(st, c); }
  }

  lemma TickKeepsInv(st: State, ms: nat)
    requires Inv(st)
    ensures Inv(Step(st, Tick(ms)))
  {
    var next := Step(st, Tick(ms));
    forall i | 0 <= i < |next.served| ensures GoodService(next, next.served[i]) { assert GoodService(st, st.served[i]); }
    forall url | url in next.cache ensures GoodEntry(next, url) { assert GoodEntry(st, url); }
    forall i | 0 <= i < |next.fetched| ensures Covered(next, next.fetched[i]) { assert Covered(st, st.fetched[i]); }
    forall c | InFlight(next, c) ensures Justified(next, c) { assert Justified(st, c); }
  }

  lemma LookKeepsInv(st: State, c: nat)
    requires Inv(st) && Enabled(st, Look(c))
    ensures Inv(Step(st, Look(c)))
  {
    var next := Step(st, Look(c));
    var url := st.callers[c].url;
    if url in st.cache { assert GoodEntry(st, url); }
    forall i | 0 <= i < |next.served| ensures GoodService(next, next.served[i]) {
      if i < |st.served| { assert GoodService(st, st.served[i]); }
    }
    forall u | u in next.cache ensures GoodEntry(next, u) { assert GoodEntry(st, u); }
    forall i | 0 <= i < |next.fetched| ensures Covered(next, next.fetched[i]) { assert Covered(st, st.fetched[i]); }
    forall d | InFlight(next, d) ensures Justified(next, d) {
      assert st.owner == Some(c);
      forall i | 0 <= i < |st.fetched| && st.fetched[i].url == url ensures Expired(st.fetched[i], st.now) {
        assert Covered(st, st.fetched[i]);
      }
    }
  }

  lemma AnswerKeepsInv(st: State, c: nat, token: Token)
    requires Inv(st) && Enabled(st, Answer(c, token))
    ensures Inv(Step(st, Answer(c, token)))
  {
    var next := Step(st, Answer(c, token));
    var fetch := Fetch(st.callers[c].url, token, st.now);
    assert InFlight(st, c) && Justified(st, c);
    assert next.fetched == st.fetched + [fetch] && fetch in next.fetched;
    forall i | 0 <= i < |next.served| ensures GoodService(next, next.served[i]) {
      if i < |st.served| { assert GoodService(st, st.served[i]); }
    }
    forall u | u in next.cache ensures GoodEntry(next, u) {
      if u != fetch.url { assert GoodEntry(st, u); }
    }
    forall i | 0 <= i < |next.fetched| ensures Covered(next, next.fetched[i]) {
      if i < |st.fetched| { assert Covered(st, st.fetched[i]); }
    }
    assert forall d: nat :: d in st.callers && !st.callers[d].Waiting? ==> d == c;
  }

  // ----- Over all runs -----

  lemma RunKeepsInv(events: seq<Event>, st: State)
    requires Runs(events, st)
    ensures Inv(st)
  {
    forall s, ev, t | Inv(s) && Moves(s, ev, t) ensures Inv(t) {
      StepKeepsInv(s, ev);
    }
    T.Invariance(INITIAL, Moves, Inv, events, st);
  }

  /** At most one token request is in flight. */
  lemma OneRequestInFlight(events: seq<Event>, st: State, c: nat, d: nat)
    requires Runs(events, st) && InFlight(st, c) && InFlight(st, d)
    ensures c == d
  {
    RunKeepsInv(events, st);
  }

  /** Tokens that live longer than the margin are served with at least the margin left, less the latency of their fetch. */
  lemma ServedTokensAreFresh(events: seq<Event>, st: State, i: nat)
    requires Runs(events, st) && i < |st.served| && st.served[i].fetch.token.expiresIn > 1200
    ensures st.served[i].fetch in st.fetched && st.served[i].fetch.url == st.served[i].url
    ensures var f := st.served[i].fetch;
            f.token.issuedAt + f.token.expiresIn * 1000 - st.served[i].at >= 1_200_000 - (f.receivedAt - f.token.issuedAt)
  {
    RunKeepsInv(events, st);
    assert GoodService(st, st.served[i]);
  }

  /** Two tokens received for one URL are further apart than the life of the first less the margin; after the bad lifetime none follows. */
  lemma FetchesAreSpaced(events: seq<Event>, st: State, i: nat, j: nat)
    requires Runs(events, st) && i < j < |st.fetched| && st.fetched[i].url == st.fetched[j].url
    ensures st.fetched[i].token.expiresIn != 1200
    ensures st.fetched[j].receivedAt - st.fetched[i].receivedAt > (st.fetched[i].token.expiresIn - 1200) * 1000
  {
    RunKeepsInv(events, st);
    assert Expired(st.fetched[i], st.fetched[j].receivedAt);
  }

  /** Every caller that has left was given a token or an error, and somebody can always go on while a caller is there. */
  lemma CallersAreAnswered(events: seq<Event>, st: State)
    requires Runs(events, st)
    ensures st.called == |st.callers| + |st.served| + st.rejected
    ensures st.callers != map[] ==> exists c :: Enabled(st, Enter(c)) || Enabled(st, Look(c)) || Enabled(st, Reject(c))
  {
    RunKeepsInv(events, st);
    if st.callers != map[] {
      var c := if st.owner.Some? then st.owner.value else AnyOf(st.callers.Keys);
      assert Enabled(st, Enter(c)) || Enabled(st, Look(c)) || Enabled(st, Reject(c));
    }
  }

  ghost function AnyOf(s: set<nat>): (c: nat)
    requires s != {}
    ensures c in s
  {
    var c :| c in s; c
  }

  // ----- The one bad lifetime -----

  /**
   A lifetime is safe to cache exactly when it is not the margin itself: the entry then has a time to live of 0,
   which never expires, and the token is served however long it has been invalid.
   */
  lemma BadLifetime(expiresIn: int)
    requires expiresIn >= 0
    ensures (forall st, issuedAt :: Reachable(st) ==>
               forall s :: s in st.served && s.fetch.token == Token(issuedAt, expiresIn) ==>
                 issuedAt + expiresIn * 1000 >= s.at - (s.fetch.receivedAt - issuedAt))
            <==> expiresIn != 1200
  {
    if expiresIn == MARGIN {
      var st := LateService();
      assert Reachable(st);
      var s := st.served[1];
      assert s in st.served && s.fetch.token == Token(0, expiresIn);
    } else {
      forall st, issuedAt, s | Reachable(st) && s in st.served && s.fetch.token == Token(issuedAt, expiresIn)
        ensures s.fetch.ExpiresAt() >= s.at - s.fetch.Latency()
      {
        var events :| T.Runs(INITIAL, Moves, events, st);
        RunKeepsInv(events, st);
        var i :| 0 <= i < |st.served| && st.served[i] == s;
        assert GoodService(st, st.served[i]);
      }
    }
  }

  lemma Reach(st: State, ev: Event) returns (next: State)
    requires Reachable(st) && Enabled(st, ev)
    ensures Reachable(next) && next == Step(st, ev)
  {
    next := Step(st, ev);
    T.MoveReachable(INITIAL, Moves, st, ev, next);
  }

  lemma LateService() returns (st: State)
    ensures Reachable(st) && |st.served| == 2
    ensures st.served[1].fetch == Fetch("u", Token(0, MARGIN), 0) && st.served[1].at > MARGIN * 1000
  {
    T.StartReachable(INITIAL, Moves);
    var fetch := Fetch("u", Token(0, MARGIN), 0);
    st := INITIAL;
    st := Reach(st, Call(0, "u"));
    st := Reach(st, Enter(0));
    st := Reach(st, Look(0));
    st := Reach(st, Answer(0, Token(0, MARGIN)));
    assert st == State(0, map["u" := Entry(fetch, None)], None, map[], [Served("u", fetch, 0)], [fetch], 1, 0);
    st := Reach(st, Tick(MARGIN * 1000 + 1));
    st := Reach(st, Call(0, "u"));
    st := Reach(st, Enter(0));
    st := Reach(st, Look(0));
  }
}
