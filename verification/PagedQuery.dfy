/**
 Reading a query result that the database delivers in pages: the loop that skips empty fetches
 (readItems, cosmos-client-wrapper.ts), the eager loop over continuation tokens
 (executeQueryWithContinuationToken, cosmos-container-client.ts) and the lazy generator
 (cosmos-query-results-iterable.ts).

 Assumed of the database: a continuation token names a position in the sequence of pages, the last page
 has none, and a fetch beyond the last page has no resources. Any fetch may fail.
 */
module PagedQuery {
  import opened Wrappers
  import opened Sequences

  datatype Fetch<T> = Page(items: seq<T>) | Failure(statusCode: int)

  datatype Response<T> =
    | Response(statusCode: int, items: seq<T>, continuationToken: Option<nat>)
    | Thrown(statusCode: int)

  /** A query's whole result: its items, and the failure that cut it short. */
  datatype Result<T> = Result(items: seq<T>, failure: Option<int>)

  /** The pages from a position on, concatenated up to the first failure. */
  function Flat<T>(pages: seq<Fetch<T>>, position: nat): Result<T>
    decreases |pages| - position
  {
    if position >= |pages| then Result([], None)
    else
      match pages[position]
      case Failure(statusCode) => Result([], Some(statusCode))
      case Page(items) =>
        var rest := Flat(pages, position + 1);
        Result(items + rest.items, rest.failure)
  }

  function Position(token: Option<nat>): nat
  {
    if token.None? then 0 else token.value
  }

  /** The token that comes with the page at a position. */
  function TokenAfter<T>(pages: seq<Fetch<T>>, position: nat): Option<nat>
  {
    if position + 1 < |pages| then Some(position + 1) else None
  }

  /** What a response stands for together with the query its token continues. */
  function Continued<T>(pages: seq<Fetch<T>>, r: Response<T>): Result<T>
  {
    match r
    case Thrown(statusCode) => Result([], Some(statusCode))
    case Response(_, items, token) =>
      if token.None? then Result(items, None)
      else Result(items + Flat(pages, token.value).items, Flat(pages, token.value).failure)
  }

  /** A successful response has items or ends the query; empty fetches in between are skipped. */
  method ReadItems<T>(pages: seq<Fetch<T>>, token: Option<nat>) returns (r: Response<T>, ghost fetched: nat)
    requires Position(token) <= |pages|
    ensures Position(token) <= fetched <= |pages|
    ensures Continued(pages, r) == Flat(pages, Position(token))
    ensures r.Response? ==> r.statusCode == if r.items == [] then 204 else 200
    ensures r.Response? && r.continuationToken.Some? ==>
              r.items != [] && r.continuationToken.value == fetched && Position(token) < fetched < |pages|
    ensures r.Response? && r.continuationToken.None? ==> fetched == |pages|
    ensures r.Response? && r.items != [] ==> Position(token) < fetched && pages[fetched - 1] == Page(r.items)
    ensures forall i :: Position(token) <= i < fetched - 1 ==> pages[i] == Page([])
    ensures r.Thrown? ==> fetched < |pages| && pages[fetched] == Failure(r.statusCode)
  {
    var position := Position(token);
    while position < |pages| && pages[position] == Page([])
      invariant Position(token) <= position <= |pages|
      invariant forall i :: Position(token) <= i < position ==> pages[i] == Page([])
      invariant Flat(pages, position) == Flat(pages, Position(token))
    {
      assert [] + Flat(pages, position + 1).items == Flat(pages, position + 1).items;
      position := position + 1;
    }
    fetched := position;
    if position >= |pages| {
      return Response(204, [], None), fetched;
    }
    match pages[position]
    case Failure(statusCode) =>
      r := Thrown(statusCode);
    case Page(items) =>
      r := Response(200, items, TokenAfter(pages, position));
      fetched := position + 1;
      if position + 1 == |pages| {
        assert items + [] == items;
      }
  }

  predicate IsSuccess(statusCode: int) { 200 <= statusCode <= 299 }

  /** The eager loop returns the concatenation of all pages, or throws the first failure. */
  method ExecuteQueryWithContinuationToken<T>(pages: seq<Fetch<T>>) returns (result: seq<T>, failure: Option<int>)
    ensures failure == Flat(pages, 0).failure
    ensures failure.None? ==> result == Flat(pages, 0).items
  {
    result := [];
    failure := None;
    var token: Option<nat> := None;
    var first := true;
    while first || token.Some?
      invariant Position(token) <= |pages| && (token.Some? ==> token.value < |pages|)
      invariant first ==> token.None? && result == []
      invariant first || token.Some? ==>
                  result + Flat(pages, Position(token)).items == Flat(pages, 0).items
                  && Flat(pages, Position(token)).failure == Flat(pages, 0).failure
      invariant !first && token.None? ==> result == Flat(pages, 0).items && Flat(pages, 0).failure == None
      decreases first, if token.Some? then |pages| - token.value else 0
    {
      first := false;
      var response, fetched := ReadItems(pages, token);
      match response
      case Thrown(statusCode) =>
        return result, Some(statusCode);
      case Response(statusCode, items, next) =>
        assert IsSuccess(statusCode);
        if next.Some? {
          Reassociate(result, items, Flat(pages, next.value).items);
        }
        token := next;
        result := result + items;
    }
  }

  /** The generator: the items of the last response not yet yielded, and the token to go on with. */
  class CosmosQueryResultsIterable<T> {
    const pages: seq<Fetch<T>>
    var pending: seq<T>
    var continuationToken: Option<nat>
    var started: bool
    ghost var fetched: nat // pages fetched so far

    constructor (pages: seq<Fetch<T>>)
      ensures Valid() && Rest() == Flat(pages, 0) && fetched == 0
    {
      this.pages := pages;
      pending := [];
      continuationToken := None;
      started := false;
      fetched := 0;
      new;
      assert [] + Flat(pages, 0).items == Flat(pages, 0).items;
    }

    ghost predicate Valid()
      reads this
    {
      && Position(continuationToken) <= |pages| && fetched <= |pages|
      && (!started ==> continuationToken.None? && pending == [] && fetched == 0)
      && (continuationToken.Some? ==> continuationToken.value == fetched)
    }

    /** What is still to come. */
    function Rest(): Result<T>
      reads this
    {
      if started && continuationToken.None? then Result(pending, None)
      else
        var later := Flat(pages, Position(continuationToken));
        Result(pending + later.items, later.failure)
    }

    /** One round of the generator's loop: the next response that has items or ends the query. */
    method FetchMore() returns (failure: Option<int>)
      requires Valid() && pending == [] && (!started || continuationToken.Some?)
      modifies this
      ensures Valid() && fetched >= old(fetched)
      ensures failure.None? ==> Rest() == old(Rest()) && (pending == [] ==> Rest() == Result([], None))
      ensures failure.Some? ==> old(Rest()) == Result([], failure)
    {
      var response, reached := ReadItems(pages, continuationToken);
      assert [] + Flat(pages, Position(continuationToken)).items == Flat(pages, Position(continuationToken)).items;
      started := true;
      fetched := if reached > fetched then reached else fetched;
      match response {
        case Thrown(statusCode) =>
          continuationToken := None;
          return Some(statusCode);
        case Response(statusCode, items, next) =>
          continuationToken := next;
          pending := items;
      }
      failure := None;
    }

    /** One step of a consumer's loop. Pages are fetched in order, each at most once, and none while items are pending. */
    method Next() returns (item: Option<T>, failure: Option<int>)
      requires Valid()
      modifies this
      ensures Valid() && fetched >= old(fetched)
      ensures old(pending) != [] ==> fetched == old(fetched)
      ensures item.Some? ==>
                && failure.None? && old(Rest().items) != []
                && item.value == old(Rest().items[0])
                && Rest() == Result(old(Rest().items)[1..], old(Rest().failure))
      ensures item.None? ==> old(Rest().items) == [] && failure == old(Rest().failure)
    {
      if pending == [] && (!started || continuationToken.Some?) {
        failure := FetchMore();
        if failure.Some? {
          return None, failure;
        }
      }
      failure := None;
      if pending == [] {
        return None, None;
      }
      item := Some(pending[0]);
      if !(started && continuationToken.None?) {
        var later := Flat(pages, Position(continuationToken)).items;
        assert (pending + later)[1..] == pending[1..] + later;
      }
      pending := pending[1..];
    }

    /** A consumer's loop to the end sees what the eager loop returns, and before a failure everything fetched. */
    method ForAwait() returns (seen: seq<T>, failure: Option<int>)
      requires Valid()
      modifies this
      ensures seen == old(Rest().items) && failure == old(Rest().failure)
    {
      seen := [];
      failure := None;
      var more := true;
      while more
        invariant Valid()
        invariant more ==> seen + Rest().items == old(Rest().items) && Rest().failure == old(Rest().failure)
        invariant !more ==> seen == old(Rest().items) && failure == old(Rest().failure)
        decreases more, |Rest().items|
      {
        ghost var before := Rest().items;
        var item;
        item, failure := Next();
        if item.None? {
          more := false;
        } else {
          assert before == [item.value] + Rest().items;
          Regroup(seen, item.value, Rest().items);
          seen := seen + [item.value];
        }
      }
    }
  }

  /** The eager and the lazy reading of a query agree: the same items where the eager one returns, the same failure. */
  method ReadBothWays<T>(pages: seq<Fetch<T>>) returns (eager: seq<T>, lazy: seq<T>, failure: Option<int>)
    ensures failure == Flat(pages, 0).failure
    ensures lazy == Flat(pages, 0).items
    ensures failure.None? ==> eager == lazy
  {
    eager, failure := ExecuteQueryWithContinuationToken(pages);
    var iterable := new CosmosQueryResultsIterable(pages);
    var lazyFailure;
    lazy, lazyFailure := iterable.ForAwait();
  }

  // ----- What the flat result is -----

  function Concat<T>(pages: seq<Fetch<T>>): seq<T>
  {
    if |pages| == 0 then []
    else Concat(pages[..|pages| - 1]) + if pages[|pages| - 1].Page? then pages[|pages| - 1].items else []
  }

  /** Without failures it is every page in order; otherwise the pages before the first failure. */
  lemma {:induction false} FlatIsConcat<T>(pages: seq<Fetch<T>>, position: nat, end: nat)
    requires position <= end <= |pages|
    requires forall i :: position <= i < end ==> pages[i].Page?
    requires end < |pages| ==> pages[end].Failure?
    ensures Flat(pages, position) == Result(Concat(pages[position..end]), if end < |pages| then Some(pages[end].statusCode) else None)
    decreases end - position
  {
    if position < end {
      FlatIsConcat(pages, position + 1, end);
      ConcatFirst(pages[position..end]);
      assert pages[position..end][1..] == pages[position + 1..end];
    }
  }

  lemma {:induction false} ConcatFirst<T>(pages: seq<Fetch<T>>)
    requires |pages| > 0 && forall i :: 0 <= i < |pages| ==> pages[i].Page?
    ensures Concat(pages) == pages[0].items + Concat(pages[1..])
  {
    if |pages| == 1 {
      assert Concat(pages[..0]) == [] && pages[..0] == [];
      assert Concat(pages) == [] + pages[0].items;
    } else {
      ConcatFirst(pages[..|pages| - 1]);
      assert pages[..|pages| - 1][1..] == pages[1..][..|pages| - 2];
    }
  }
}
