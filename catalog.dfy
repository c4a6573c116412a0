/**
 * The station catalog and `fetch_stations`: list the plants, retrying with
 * exponential back-off; an exception and an empty list both count as failure,
 * and running out of retries ends the process with `sys.exit(1)`.
 */
module Catalog {
  import opened Backoff

  /** One entry of the listing: `stationCode` and `stationName`. */
  datatype Station = Station(code: string, name: string)

  /** One call of the listing endpoint: it raised, or it answered with its `data` list ([] when absent). */
  datatype ListOutcome = ListRaised | Listed(stations: seq<Station>)

  /** What `fetch_stations` ends with: the list, or `sys.exit(1)` after the last retry. */
  datatype CatalogResult = Catalog(stations: seq<Station>) | Exhausted

  /** The base delay of the listing back-off, fixed in the source. */
  const ListingBaseDelay := 5

  /** `[s['stationCode'] for s in stations]` */
  function Codes(stations: seq<Station>): (codes: seq<string>)
    ensures |codes| == |stations|
    ensures forall j :: 0 <= j < |stations| ==> codes[j] == stations[j].code
  {
    if stations == [] then [] else [stations[0].code] + Codes(stations[1..])
  }

  /** An attempt succeeds only when it returns a non-empty list. */
  predicate ListingOk(o: ListOutcome)
  {
    o.Listed? && o.stations != []
  }

  /** The first attempt at or after `k` and before `n` that succeeds, or `n` when none does. */
  function FirstListing(client: nat -> ListOutcome, k: nat, n: nat): (i: nat)
    requires k <= n
    ensures k <= i <= n
    ensures i < n ==> ListingOk(client(i))
    ensures forall j :: k <= j < i ==> !ListingOk(client(j))
    decreases n - k
  {
    if k == n then n
    else if ListingOk(client(k)) then k
    else FirstListing(client, k + 1, n)
  }

  /** How many times `fetch_stations` calls the client. */
  function ListingCalls(client: nat -> ListOutcome, maxRetries: int): (calls: nat)
    ensures calls <= Budget(maxRetries)
    ensures forall j :: 0 <= j < calls - 1 ==> !ListingOk(client(j))
    ensures calls < Budget(maxRetries) ==> calls > 0 && ListingOk(client(calls - 1))
  {
    var i := FirstListing(client, 0, Budget(maxRetries));
    if i < Budget(maxRetries) then i + 1 else Budget(maxRetries)
  }

  /** What `fetch_stations` returns: the first non-empty list within the retry budget. */
  function FetchedCatalog(client: nat -> ListOutcome, maxRetries: int): (r: CatalogResult)
    ensures r.Exhausted? <==> forall j :: 0 <= j < Budget(maxRetries) ==> !ListingOk(client(j))
    ensures r.Catalog? ==> r.stations != [] && ListingCalls(client, maxRetries) > 0
    ensures r.Catalog? ==> r.stations == client(ListingCalls(client, maxRetries) - 1).stations
  {
    var i := FirstListing(client, 0, Budget(maxRetries));
    if i < Budget(maxRetries) then Catalog(client(i).stations) else Exhausted
  }

  /**
   * `fetch_stations`: the k-th call of the listing endpoint yields `client(k)`;
   * `delays` are the `time.sleep` durations in order.
   */
  method FetchStations(client: nat -> ListOutcome, maxRetries: int)
    returns (r: CatalogResult, calls: nat, delays: seq<int>)
    ensures r == FetchedCatalog(client, maxRetries)
    ensures calls == ListingCalls(client, maxRetries) && calls <= Budget(maxRetries)
    ensures delays == Schedule(ListingBaseDelay, SleepsAfter(calls))
  {
    var retries := 0;
    calls, delays := 0, [];
    while retries <= maxRetries
      invariant 0 <= retries == calls <= Budget(maxRetries)
      invariant maxRetries >= 0 ==> calls <= maxRetries
      invariant forall j :: 0 <= j < calls ==> !ListingOk(client(j))
      invariant delays == Schedule(ListingBaseDelay, calls)
      decreases Budget(maxRetries) - calls
    {
      var outcome := client(calls);
      calls := calls + 1;
      match outcome {
        case Listed(stations) =>
          if stations != [] {
            r := Catalog(stations);
            return;
          }
          retries := retries + 1;
          if retries <= maxRetries {
            delays := delays + [Delay(ListingBaseDelay, retries)];
          } else {
            r := Exhausted;
            return;
          }
        case ListRaised =>
          retries := retries + 1;
          if retries > maxRetries {
            r := Exhausted;
            return;
          }
          delays := delays + [Delay(ListingBaseDelay, retries)];
      }
    }
    r := Exhausted;
  }
}
