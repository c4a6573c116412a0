/**
 * The per-plant detail request: `_api_request_with_retry`, which retries
 * only transport failures, and `fetch_plant_power_control_data`, which keeps
 * a response only when it is HTTP 200 with a truthy `success`.
 */
module Detail {
  import opened Wrappers
  import opened Backoff

  /** A mode-specific parameter block, kept as an opaque JSON value. */
  type Param = string

  /** The `data` object of a detail response. */
  datatype DataBlock = DataBlock(
    plantCode: Option<string>,
    controlMode: Option<string>,
    kwParam: Option<Param>,       // limitedPowerGridValueParam
    percentParam: Option<Param>,  // limitedPowerGridPercentParam
    zeroParam: Option<Param>)     // zeroExportLimitationParam

  /** A parsed response envelope; `success` is the truthiness of its `success` key. */
  datatype Payload = Payload(success: bool, message: Option<string>, data: Option<DataBlock>)

  /**
   * An HTTP response. `body` is `None` when reading it would raise. That
   * happens when `response.json()` raises, or when the body parses to
   * something other than a JSON object (`null`, a list, a number), on which
   * `.get('success')` raises.
   */
  datatype HttpResponse = HttpResponse(status: int, body: Option<Payload>)

  /**
   * One call of `client.session.post`: a `RequestException` (which includes
   * `ConnectionError`), any other exception, or a response.
   */
  datatype PostOutcome = TransportError | OtherError | Answered(response: HttpResponse)

  /** What `_api_request_with_retry` ends with: a response, `None`, or an exception that escapes it. */
  datatype PostResult = Answer(response: HttpResponse) | GaveUp | Escaped

  /** What `fetch_plant_power_control_data` ends with: the payload, `None`, or an exception that escapes it. */
  datatype DetailResult = Fetched(payload: Payload) | NoData | Aborted

  /** The defaults `max_retries=3`, `base_delay=5`; the caller never overrides them. */
  const DetailMaxRetries := 3
  const DetailBaseDelay := 5

  /** The first attempt at or after `k` and before `n` that is not a transport failure, or `n`. */
  function FirstAnswer(post: nat -> PostOutcome, k: nat, n: nat): (i: nat)
    requires k <= n
    ensures k <= i <= n
    ensures i < n ==> !post(i).TransportError?
    ensures forall j :: k <= j < i ==> post(j).TransportError?
    decreases n - k
  {
    if k == n then n
    else if !post(k).TransportError? then k
    else FirstAnswer(post, k + 1, n)
  }

  /** How many times `_api_request_with_retry` calls `post`. */
  function RequestCalls(post: nat -> PostOutcome, maxRetries: int): (calls: nat)
    ensures calls <= Budget(maxRetries)
    ensures forall j :: 0 <= j < calls - 1 ==> post(j).TransportError?
    ensures calls < Budget(maxRetries) ==> calls > 0 && !post(calls - 1).TransportError?
  {
    var i := FirstAnswer(post, 0, Budget(maxRetries));
    if i < Budget(maxRetries) then i + 1 else Budget(maxRetries)
  }

  /** What `_api_request_with_retry` ends with: the first attempt that is not a transport failure decides. */
  function RequestOutcome(post: nat -> PostOutcome, maxRetries: int): (r: PostResult)
    ensures r.GaveUp? <==> forall j :: 0 <= j < Budget(maxRetries) ==> post(j).TransportError?
    ensures !r.GaveUp? ==> RequestCalls(post, maxRetries) > 0
    ensures r.Answer? <==> !r.GaveUp? && post(RequestCalls(post, maxRetries) - 1).Answered?
    ensures r.Answer? ==> r.response == post(RequestCalls(post, maxRetries) - 1).response
  {
    var i := FirstAnswer(post, 0, Budget(maxRetries));
    if i == Budget(maxRetries) then GaveUp
    else if post(i).Answered? then Answer(post(i).response)
    else Escaped
  }

  /**
   * The first back-off sleep raises `ValueError`: the first call was a
   * transport failure with a retry left, and the delay is negative.  With an
   * integer base and a jitter in [0, 1), the delay is negative exactly when
   * the base is.
   */
  predicate SleepRaises(post: nat -> PostOutcome, maxRetries: int, baseDelay: int)
  {
    baseDelay < 0 && maxRetries >= 1 && post(0).TransportError?
  }

  /**
   * `_api_request_with_retry`: the k-th call of `post` yields `post(k)`;
   * `delays` are the integer parts of the `time.sleep` durations in order.
   * A sleep that raises ends the call with that exception.
   */
  method ApiRequestWithRetry(post: nat -> PostOutcome, maxRetries: int, baseDelay: int)
    returns (r: PostResult, calls: nat, delays: seq<int>)
    ensures r == if SleepRaises(post, maxRetries, baseDelay) then Escaped else RequestOutcome(post, maxRetries)
    ensures calls == (if SleepRaises(post, maxRetries, baseDelay) then 1 else RequestCalls(post, maxRetries))
    ensures calls <= Budget(maxRetries)
    ensures delays == Schedule(baseDelay, SleepsAfter(calls))
    ensures forall k :: 0 <= k < |delays| ==> delays[k] >= 0
  {
    var retries := 0;
    calls, delays := 0, [];
    while retries <= maxRetries
      invariant 0 <= retries == calls <= Budget(maxRetries)
      invariant maxRetries >= 0 ==> calls <= maxRetries
      invariant forall j :: 0 <= j < calls ==> post(j).TransportError?
      invariant delays == Schedule(baseDelay, calls)
      invariant baseDelay < 0 ==> calls == 0
      invariant forall k :: 0 <= k < |delays| ==> delays[k] >= 0
      decreases Budget(maxRetries) - calls
    {
      var outcome := post(calls);
      calls := calls + 1;
      match outcome {
        case Answered(response) =>
          r := Answer(response);
          return;
        case OtherError =>
          r := Escaped;
          return;
        case TransportError =>
          retries := retries + 1;
          if retries > maxRetries {
            r := GaveUp;
            return;
          }
          if baseDelay < 0 {
            r := Escaped;       // time.sleep raises ValueError on a negative duration
            return;
          }
          delays := delays + [Delay(baseDelay, retries)];
      }
    }
    r := GaveUp;
  }

  /** The classification of `fetch_plant_power_control_data` (lines after the request). */
  function Classify(r: PostResult): (d: DetailResult)
    ensures d.Fetched? <==> r.Answer? && r.response.status == 200 && r.response.body.Some? && r.response.body.value.success
    ensures d.Fetched? ==> d.payload == r.response.body.value
    ensures d.Aborted? <==> r.Escaped? || (r.Answer? && r.response.status == 200 && r.response.body.None?)
  {
    match r
    case GaveUp => NoData
    case Escaped => Aborted
    case Answer(response) =>
      if response.status == 200 then
        match response.body
        case None => Aborted
        case Some(payload) => if payload.success then Fetched(payload) else NoData
      else NoData
  }

  /** `fetch_plant_power_control_data` for one plant whose k-th request attempt yields `post(k)`. */
  method FetchPlantPowerControlData(post: nat -> PostOutcome) returns (d: DetailResult, delays: seq<int>)
    ensures d == Classify(RequestOutcome(post, DetailMaxRetries))
    ensures d.Fetched? ==> d.payload.success
    ensures delays == Schedule(DetailBaseDelay, SleepsAfter(RequestCalls(post, DetailMaxRetries)))
    ensures |delays| <= DetailMaxRetries
  {
    var response, calls;
    response, calls, delays := ApiRequestWithRetry(post, DetailMaxRetries, DetailBaseDelay);
    assert !SleepRaises(post, DetailMaxRetries, DetailBaseDelay);
    d := Classify(response);
  }
}
