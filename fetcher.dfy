/**
 * The retry policy of `fetchPage(url, retries = 3)`: up to `retries` attempts,
 * the first success returned at once, a linear backoff of 2000*(i+1) ms after
 * each failed attempt i except the last, and the last attempt's error rethrown.
 * The network is a function from a URL and an attempt number to that attempt's
 * outcome; the sleeps are returned as the list of delays.
 */
module Fetcher {

  /** One attempt: the response text (an `ok` response), or the error it raised (a non-2xx status or a transport failure). */
  datatype Attempt = Response(body: string) | Failure(message: string)

  /** The page text, the error of the last attempt, or JavaScript's `undefined` when the loop makes no attempt at all. */
  datatype FetchResult = Fetched(body: string) | Failed(message: string) | NoAttempt

  /** Outcome of attempt number `i` (from 0) at a URL. */
  type Network = (string, nat) -> Attempt

  /** `retries` when the caller gives none. */
  const DefaultRetries := 3

  /** Milliseconds slept after failed attempt `i`. */
  function Backoff(i: nat): nat {
    2000 * (i + 1)
  }

  /** The outcome of the attempts from number `i` on, when those before `i` failed. */
  function RetryFrom(url: string, retries: int, network: Network, i: nat): (r: FetchResult)
    requires i < retries
    ensures !r.NoAttempt?
    ensures r.Fetched? <==> exists j :: i <= j < retries && network(url, j).Response?
    ensures r.Fetched? ==> exists j :: i <= j < retries && network(url, j) == Response(r.body) &&
                                       forall k | i <= k < j :: network(url, k).Failure?
    ensures r.Failed? ==> network(url, retries - 1) == Failure(r.message) &&
                          forall k | i <= k < retries :: network(url, k).Failure?
    decreases retries - i
  {
    match network(url, i)
    case Response(body) => Fetched(body)
    case Failure(message) =>
      if i == retries - 1 then Failed(message) else RetryFrom(url, retries, network, i + 1)
  }

  /** What `fetchPage(url, retries)` resolves to or rejects with. */
  function FetchOutcome(url: string, retries: int, network: Network): (r: FetchResult)
    ensures r.NoAttempt? <==> retries <= 0
  {
    if retries <= 0 then NoAttempt else RetryFrom(url, retries, network, 0)
  }

  /**
   * `fetchPage(url, retries)`: `made` is the number of attempts, `delays` the sleeps in order.
   * It stops at the first success, never exceeds `retries` attempts, sleeps 2000*(i+1) ms only
   * after a failed attempt i that is not the last, and rethrows the last attempt's error.
   */
  method FetchPage(url: string, retries: int, network: Network) returns (r: FetchResult, made: nat, delays: seq<nat>)
    ensures r == FetchOutcome(url, retries, network)
    ensures made == 0 <==> retries <= 0
    ensures made > 0 ==> made <= retries && forall k | 0 <= k < made - 1 :: network(url, k).Failure?
    ensures r.Fetched? ==> network(url, made - 1) == Response(r.body)
    ensures r.Failed? ==> made == retries && network(url, made - 1) == Failure(r.message)
    ensures |delays| == (if made == 0 then 0 else made - 1)
    ensures forall j | 0 <= j < |delays| :: delays[j] == Backoff(j)
  {
    r, made, delays := NoAttempt, 0, [];
    var i: nat := 0;
    while i < retries
      invariant retries > 0 ==> i < retries
      invariant retries <= 0 ==> i == 0
      invariant forall k | 0 <= k < i :: network(url, k).Failure?
      invariant |delays| == i && forall j | 0 <= j < i :: delays[j] == Backoff(j)
      invariant retries > 0 ==> FetchOutcome(url, retries, network) == RetryFrom(url, retries, network, i)
      decreases retries - i
    {
      var attempt := network(url, i);
      if attempt.Response? {
        return Fetched(attempt.body), i + 1, delays;
      }
      if i == retries - 1 {
        return Failed(attempt.message), i + 1, delays;
      }
      delays := delays + [Backoff(i)];
      i := i + 1;
    }
  }

  /** A fetch fails only when every one of the `retries` attempts failed, and then carries the last attempt's error. */
  lemma FetchOutcomeFailed(url: string, retries: int, network: Network)
    ensures FetchOutcome(url, retries, network).Failed? <==>
            retries > 0 && forall k | 0 <= k < retries :: network(url, k).Failure?
    ensures FetchOutcome(url, retries, network).Failed? ==>
            FetchOutcome(url, retries, network).message == network(url, retries - 1).message
  {
    if retries > 0 && forall k | 0 <= k < retries :: network(url, k).Failure? {
      var r := RetryFrom(url, retries, network, 0);
      assert !r.Fetched?;
    }
  }

  /** A fetch succeeds with the body of the first successful attempt among the first `retries`. */
  lemma FetchOutcomeFetched(url: string, retries: int, network: Network, j: nat)
    requires j < retries && network(url, j).Response?
    requires forall k | 0 <= k < j :: network(url, k).Failure?
    ensures FetchOutcome(url, retries, network) == Fetched(network(url, j).body)
  {
    var r := RetryFrom(url, retries, network, 0);
    assert r.Fetched?;
    var j' :| 0 <= j' < retries && network(url, j') == Response(r.body) &&
              forall k | 0 <= k < j' :: network(url, k).Failure?;
    assert j' == j;
  }
}
