/**
 * Where a sweep resumes: the first position of the checkpoint code in the
 * freshly fetched catalog, plus one; the catalog from there on, capped when
 * `plant_limit` is truthy.
 */
module Resume {
  import opened Wrappers
  import opened Catalog

  /** `codes.index(c)`: the first position of `c`, or `None` where Python raises `ValueError`. */
  function IndexOf(codes: seq<string>, c: string): (r: Option<nat>)
    ensures r.None? <==> c !in codes
    ensures r.Some? ==> r.value < |codes| && codes[r.value] == c && c !in codes[..r.value]
  {
    if codes == [] then None
    else if codes[0] == c then Some(0)
    else
      match IndexOf(codes[1..], c)
      case None => None
      case Some(k) =>
        assert codes[..k + 1] == [codes[0]] + codes[1..][..k];
        Some(k + 1)
  }

  /** `start_index`: one past the first occurrence of a truthy checkpoint code, otherwise 0. */
  function StartIndex(catalog: seq<Station>, checkpoint: Option<string>): (start: nat)
    ensures start <= |catalog|
    ensures start == 0 <==> checkpoint.None? || checkpoint.value == "" || checkpoint.value !in Codes(catalog)
    ensures start > 0 ==> catalog[start - 1].code == checkpoint.value
    ensures start > 0 ==> forall j :: 0 <= j < start - 1 ==> catalog[j].code != checkpoint.value
  {
    if checkpoint.Some? && checkpoint.value != "" then
      match IndexOf(Codes(catalog), checkpoint.value)
      case Some(k) =>
        assert forall j :: 0 <= j < k ==> Codes(catalog)[..k][j] == catalog[j].code;
        k + 1
      case None => 0
    else 0
  }

  function Min(a: int, b: int): int { if a <= b then a else b }
  function Max(a: int, b: int): int { if a >= b then a else b }

  /** Python's `s[:limit]`, where a negative limit counts from the end. */
  function Head<T>(s: seq<T>, limit: int): (r: seq<T>)
    ensures r <= s
    ensures limit >= 0 ==> |r| == Min(limit, |s|)
    ensures limit < 0 ==> |r| == Max(0, |s| + limit)
  {
    if limit >= 0 then (if limit <= |s| then s[..limit] else s)
    else if |s| + limit >= 0 then s[..|s| + limit]
    else []
  }

  /** `stations_to_process`: the resume slice, cut to `plant_limit` when that is truthy. */
  function StationsToProcess(catalog: seq<Station>, checkpoint: Option<string>, plantLimit: Option<int>)
    : (todo: seq<Station>)
    ensures todo <= catalog[StartIndex(catalog, checkpoint)..]
    ensures plantLimit.None? || plantLimit.value == 0 ==> todo == catalog[StartIndex(catalog, checkpoint)..]
    ensures plantLimit.Some? && plantLimit.value > 0 ==>
              |todo| == Min(plantLimit.value, |catalog| - StartIndex(catalog, checkpoint))
    ensures plantLimit.Some? && plantLimit.value < 0 ==>
              |todo| == Max(0, |catalog| - StartIndex(catalog, checkpoint) + plantLimit.value)
  {
    var rest := catalog[StartIndex(catalog, checkpoint)..];
    if plantLimit.Some? && plantLimit.value != 0 then Head(rest, plantLimit.value) else rest
  }

  /** No two catalog entries share a station code. */
  predicate DistinctCodes(catalog: seq<Station>)
  {
    forall a, b :: 0 <= a < b < |catalog| ==> catalog[a].code != catalog[b].code
  }

  /** A checkpoint naming entry k of a catalog with distinct codes resumes at entry k + 1, in catalog order. */
  lemma ResumeAfter(catalog: seq<Station>, k: nat, plantLimit: Option<int>)
    requires DistinctCodes(catalog)
    requires k < |catalog| && catalog[k].code != ""
    ensures StartIndex(catalog, Some(catalog[k].code)) == k + 1
    ensures StationsToProcess(catalog, Some(catalog[k].code), plantLimit) <= catalog[k + 1..]
    ensures plantLimit.None? ==> StationsToProcess(catalog, Some(catalog[k].code), plantLimit) == catalog[k + 1..]
  {
    var start := StartIndex(catalog, Some(catalog[k].code));
    assert catalog[k].code in Codes(catalog) by {
      assert Codes(catalog)[k] == catalog[k].code;
    }
    assert start - 1 == k;
  }

  /** A checkpoint that is missing, empty or not in the catalog restarts the sweep from the first entry. */
  lemma RestartFromFirst(catalog: seq<Station>, checkpoint: Option<string>)
    requires checkpoint.None? || checkpoint.value == "" || checkpoint.value !in Codes(catalog)
    ensures StartIndex(catalog, checkpoint) == 0
    ensures StationsToProcess(catalog, checkpoint, None) == catalog
  {
  }

  /** A checkpoint naming the last entry leaves nothing to process, whatever the cap. */
  lemma CheckpointAtEnd(catalog: seq<Station>, plantLimit: Option<int>)
    requires DistinctCodes(catalog)
    requires catalog != [] && catalog[|catalog| - 1].code != ""
    ensures StationsToProcess(catalog, Some(catalog[|catalog| - 1].code), plantLimit) == []
  {
    ResumeAfter(catalog, |catalog| - 1, plantLimit);
  }
}
