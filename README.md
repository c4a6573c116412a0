# Fusion Solar power-control collector — a Dafny model

This project models the collection sweep of the Fusion Solar collector in
`src/main.py`, the function `get_power_control_mode` and the functions it calls.
A run goes through these steps:

1. It connects to the database.
2. It lists the plants (stations), with a bounded exponential back-off.
3. It loads the checkpoint: the code of the last plant whose data was saved.
4. It resumes right after that plant in the fresh catalog and caps the list
   at `plant_limit` when that is truthy. If the list is empty, it deletes the
   state file and stops.
5. It sleeps one cooldown before each plant. For each plant it:
   - fetches the plant's power-control mode, with its own bounded back-off;
   - upserts a row keyed by plant code, or a failure row when no data came;
   - saves the plant as the new checkpoint only when data was fetched and
     the row was committed.
6. The exit status is decided in the `finally` block.

The model is split into one module per part:

- `Backoff`: retry budgets and the delay schedule `base * 2^(k-1)`.
- `Catalog`: `fetch_stations` as a `while` loop. An exception and an empty
  list both count as a failed attempt.
- `Detail`:
  - `_api_request_with_retry` as a `while` loop that retries transport
    errors only;
  - the classification done by `fetch_plant_power_control_data`.
- `Persist`: row construction and the upsert. The table is a `Database`
  class holding a `map` from plant code to row.
- `Checkpoint`: the state file as a `CheckpointFile` class, with `Load`,
  `Save` and `Remove`.
- `Resume`: start index, resume slice and cap.
- `Sweep`: the loop, specified as a fold over what happened to each station,
  with its ordering, pacing, gating and table lemmas.
- `Collector`:
  - the loop and the whole run as methods, proved against the fold and
    against `Collect`, the function that specifies one run;
  - the exit status;
  - properties that relate one run to the next.

Remote calls are supplied as inputs: the k-th listing attempt, and the k-th
detail attempt for the i-th station. The same goes for storage errors, the
outcomes of state-file writes and deletes, and the value of `NOW()`.
`time.sleep` becomes an event in a trace.

A `time.sleep` with a negative duration raises `ValueError`. The model
keeps that: a negative cooldown fails the run before any request, and a
negative base delay ends `_api_request_with_retry` with that exception at its
first back-off sleep.

The code's own text promises more than the code does, and the model follows
the code:

- **Exit status.** The listing loop and the state-file deletion call
  `sys.exit(1)` (src/main.py:151, 156, 163 and 305). Those calls sit inside
  the `try` of `get_power_control_mode`, and its `finally` block calls
  `sys.exit(exit_code)` with `exit_code` still 0. A failed connection sets
  `exit_code` to 1, but with no connection the `finally` block calls no
  `sys.exit` at all. See Findings.
- **Failed plants.** The warning at src/main.py:330 says a plant whose push
  failed "will be retried on next run". The code only never saves that plant
  as the checkpoint. A later plant whose save is written moves the
  checkpoint past it (`FailureBeforeLaterSaveIsSkipped`).
- **A failed save.** `save_state` opens the state file with `open(path, 'w')`
  (src/main.py:119), which empties it before `json.dump` writes. If the write
  then fails, the file is left unreadable, and the next run starts again from
  the first plant (`NextRunRestartsAfterFailedWrite`).
- **Exceptions in the sweep.** Nothing in the loop catches an exception
  raised by the detail request (src/main.py:320), so it ends the sweep.

## Model

| member | source | states |
|---|---|---|
| Backoff.Schedule | src/main.py:244-251 | the sleeps before retries 1..n are base·2^(k-1), one per retry |
| Backoff.ScheduleDoubles | src/main.py:249 | each back-off delay is twice the one before it |
| Backoff.DefaultSchedule | src/main.py:228-251 | with the defaults (3 retries, base 5) the sleeps are 5, 10, 20 seconds |
| Backoff.ScheduleTotal | src/main.py:238-251 | the total waiting time of n retries is base·(2^n − 1) |
| Catalog.Codes | src/main.py:283 | the code list has one entry per station, in catalog order |
| Catalog.FirstListing | src/main.py:136-141 | the first listing attempt at or after k that gave a non-empty list, and no earlier attempt did |
| Catalog.ListingCalls | src/main.py:135-163 | at most max_retries+1 listing calls; all calls but the last failed; fewer than the budget means the last one succeeded |
| Catalog.FetchedCatalog | src/main.py:135-163 | exhaustion exactly when every attempt within the budget raised or returned an empty list; otherwise the non-empty list of the successful attempt |
| Catalog.FetchStations | src/main.py:126-163 | the loop returns that catalog after that many calls, having slept 5·2^(k-1) before retry k |
| Detail.FirstAnswer | src/main.py:239-244 | the first attempt at or after k that did not raise a transport error |
| Detail.RequestCalls | src/main.py:238-252 | at most max_retries+1 calls; every call but the last raised a transport error |
| Detail.RequestOutcome | src/main.py:238-252 | gives up exactly when every attempt within the budget was a transport error; otherwise returns the first response, whatever its status, or lets another exception escape |
| Detail.ApiRequestWithRetry | src/main.py:228-252 | the loop's result, call count and sleeps equal that outcome and the back-off schedule; a negative base delay makes the first back-off sleep raise, so the call ends after one attempt with the exception; every sleep taken is non-negative |
| Detail.Classify | src/main.py:180-191 | the payload is returned exactly for status 200 with a truthy `success`; the request raising, or a 200 without a JSON body, is an exception; everything else gives no data |
| Detail.FetchPlantPowerControlData | src/main.py:165-191 | a fetched payload always has `success`; at most 3 retry sleeps, from base 5 |
| Persist.BuildRow | src/main.py:30-46 | `api_success` iff the payload has a truthy `success`; the key is `data.plantCode` when success holds and it is non-empty, else the station code; without success, or with success but no `data`, every data field is null; otherwise the fields are those of `data` |
| Persist.Upsert | src/main.py:49-71 | the key maps to the new row, the key set grows by that key only, and every other row is unchanged |
| Persist.UpsertIdempotent | src/main.py:49-60 | upserting the same row twice is upserting it once |
| Persist.RepeatedPush | src/main.py:49-71 | repeating a push leaves one row under the key, with the same values apart from `last_updated` |
| Persist.Database.Push | src/main.py:62-75 | returns true and upserts the row when the write commits; on a storage error returns false and leaves the table as it was |
| Checkpoint.LoadedCode | src/main.py:84-100 | a missing file, an unreadable file, and a missing or empty key all give None; otherwise the stored code |
| Checkpoint.SaveLoadRoundTrip | src/main.py:102-120 | loading what `save_state(c)` wrote gives back c exactly when c is non-empty |
| Checkpoint.AfterSave | src/main.py:102-122 | defined by its body: the state file after `save_state(code)`. It names the code when written, is unreadable when the write failed after `open(path, 'w')` emptied it, and is unchanged when the directory or the `open` failed |
| Checkpoint.SaveThenLoad | src/main.py:84-122 | after `save_state(c)` the next load gives c when written and truthy, None after a failed write, and what it gave before otherwise |
| Checkpoint.CheckpointFile.Load | src/main.py:79-100 | returns the loaded code of the current file |
| Checkpoint.CheckpointFile.Save | src/main.py:102-122 | the file becomes `AfterSave` of the old file: the code when written; unreadable, so that loading gives None, when the write fails after the file was emptied; unchanged when the directory or `open` fails |
| Checkpoint.CheckpointFile.Remove | src/main.py:298-305 | succeeds when there is no file or the delete works, and the file is then absent; otherwise nothing changes |
| Resume.IndexOf | src/main.py:283-285 | None exactly when the code is not in the list; otherwise its first index |
| Resume.StartIndex | src/main.py:279-287 | 0 when the checkpoint is None, empty or not in the catalog; otherwise one past the first station carrying it |
| Resume.Head | src/main.py:292 | Python's `s[:n]`: a prefix, of length min(n, \|s\|) for n ≥ 0 and max(0, \|s\|+n) for n < 0 |
| Resume.StationsToProcess | src/main.py:289-292 | a prefix of the catalog from the start index; all of it when the limit is None or 0; min(limit, remaining) stations for a positive limit; for a negative limit, all but the last \|limit\| remaining stations, or none |
| Resume.ResumeAfter | src/main.py:279-290 | with distinct codes, a checkpoint naming station k resumes at k+1 |
| Resume.RestartFromFirst | src/main.py:282-288 | a missing, empty or unknown checkpoint processes the whole catalog |
| Resume.CheckpointAtEnd | src/main.py:290-297 | a checkpoint naming the last station leaves nothing to process |
| Sweep.Outcome | src/main.py:315-339 | defined by its body: the station's code and back-off sleeps; no push when the request raised; otherwise the payload or the failure payload, whether the push committed, whether data was fetched, and how the save fares |
| Sweep.Step | src/main.py:320-339 | defined by its body: a raise ends the sweep; otherwise a committed push upserts its row, and the save of an advancing station changes the file as `AfterSave` says |
| Sweep.SweepAfter | src/main.py:314-339 | defined by its body: the table and the state file after the first n stations, stopping at the first raise |
| Sweep.TraceAfter | src/main.py:309-345 | defined by its body: the events of the first n stations, one block each (cooldown, request, retry sleeps, push, save), up to and including the station whose request raised |
| Sweep.Outcomes | src/main.py:312-339 | one outcome per station, in list order, carrying that station's code |
| Sweep.OutcomeGating | src/main.py:322-339 | the push happens unless the request raised; `save_state` is called iff data was fetched and the push committed; without data the failure row is keyed by the station code |
| Sweep.RaisedMeans | src/main.py:320-351 | a request raised among the first n stations exactly when one of them has no push |
| Sweep.RaisedStays | src/main.py:320-351 | once a request has raised, it stays raised for every longer prefix |
| Sweep.SweepAbortsOnlyOnException | src/main.py:318-351 | the sweep stops early exactly when some detail request raised |
| Sweep.SweepStep | src/main.py:314-345 | before any raise, one more station is one more step and one more block of events: cooldown, request, retry sleeps, push, save |
| Sweep.AbortIsFinal | src/main.py:320-351 | after an exception the remaining stations change neither the table nor the state file |
| Sweep.TraceIsFinal | src/main.py:320-351 | after an exception the remaining stations add no events |
| Sweep.RaiseEndsSweep | src/main.py:320-351 | when the i-th request raises, the state and the events of the whole sweep are those after station i |
| Sweep.PassCounts | src/main.py:314-339 | a pass of the loop body has one request, no cooldown, and a save exactly when its station advances |
| Sweep.BlockCounts | src/main.py:309-345 | a pass with its cooldown has one cooldown and one request, and a save exactly when its station advances |
| Sweep.TraceStepCounts | src/main.py:314-345 | one more station adds nothing after a raise; otherwise one cooldown, its own request, and its save when it advances |
| Sweep.OutcomeCodes | src/main.py:312-314 | the codes of the first n stations processed, in order |
| Sweep.PacedConcat | src/main.py:309-345 | joining two paced traces gives a paced trace |
| Sweep.RetrySleepsPaced | src/main.py:244-251 | back-off sleeps hold no request and no cooldown |
| Sweep.BlockPaced | src/main.py:311-345 | one station's block is paced: its cooldown directly before its request, and no other request or cooldown |
| Sweep.TraceStepPaced | src/main.py:311-345 | one more station keeps the sweep's trace paced |
| Sweep.SweepPacing | src/main.py:310-345 | every request directly follows a cooldown sleep, and every cooldown sleep is directly followed by a request, so the counts are equal |
| Sweep.SweepRequestOrder | src/main.py:312-319 | stations are requested strictly in list order; all of them when no request raised |
| Sweep.SweepSaves | src/main.py:322-330 | `save_state` is called, in order, exactly for the stations whose data was fetched and whose push committed |
| Sweep.LastChange | src/main.py:327-328 | the last station whose save changed the state file (written, or emptied by a failed write), and none after it did |
| Sweep.LastChangeIsWrite | src/main.py:327-328 | when station k's save was written and no later save failed to write, the last change is a written save at k or later |
| Sweep.CheckpointIsLastChange | src/main.py:322-330 | after a completed sweep the state file names the last change's station when it was written, is unreadable when that write failed, and is unchanged when no save changed it |
| Sweep.CheckpointOnlyFromAdvances | src/main.py:322-339 | the state file is unchanged, names a fetched and committed station whose save was written, or is unreadable after such a station's failed write |
| Sweep.LastRows | src/main.py:49-60 | the keys are exactly the keys of the rows |
| Sweep.UpsertAllIsOverlay | src/main.py:49-71 | upserting rows in order overlays the last row of each key on the table |
| Sweep.SweepTable | src/main.py:322-339 | the table after the sweep is the committed rows upserted in order |
| Sweep.SweepKeepsOtherRows | src/main.py:49-71 | no row is deleted, and a key no committed row carries keeps its row |
| Sweep.RerunIsHarmless | src/main.py:49-60 | re-running the same sweep, with the same outcomes and the same `NOW()` values, over its own result leaves the table unchanged |
| Collector.ProcessStation | src/main.py:313-339 | one pass of the loop body: its events are the request, the retry sleeps, the push and the save, and whether it raised, the table and the state file are one step of the sweep |
| Collector.ProcessStations | src/main.py:309-345 | the loop, with the initial cooldown, produces the sweep's trace, table and state file; a negative cooldown raises before any station, leaving everything as it was |
| Collector.GetPowerControlMode | src/main.py:256-357 | the run's end, trace, table and state file are those of `Collect`, and the status is the intended exit status |
| Collector.Collect | src/main.py:256-351 | defined by its body: one run, from the connection through the listing, the resume slice and the deletion of the state file to the sweep; a negative cooldown fails before the first station |
| Collector.ExitStatusAsWritten | src/main.py:346-357 | defined by its body: the status as the `finally` block decides it. It is `sys.exit(exit_code)` only with a connection, replacing any earlier `sys.exit`. Without a connection it is the `sys.exit` code, or 0 |
| Collector.CollectTermination | src/main.py:256-351 | a run fails on a connection error or a raised request, calls `sys.exit(1)` on an exhausted listing or a failed deletion, fails when a negative cooldown makes the first sleep raise, and returns otherwise |
| Collector.ExitStatusAsWrittenHidesFailures | src/main.py:346-357 | as written, the exit status is non-zero only when a detail request or the first cooldown sleep raised |
| Collector.ExitStatusReportsFailure | src/main.py:346-357 | with the intended status, a run exits non-zero exactly when the connection, the listing, the state-file deletion, the first cooldown sleep or a detail request failed |
| Collector.NegativeCooldownFailsEarly | src/main.py:309-351 | with stations to process and a negative cooldown, the run fails with status 1 before any request or cooldown, leaving the table and the state file as they were |
| Collector.UpToDateRunDoesNoWork | src/main.py:294-306 | with nothing to process: no request, no cooldown, the table unchanged, and the state file deleted unless deletion fails |
| Collector.SweptOrderAndPacing | src/main.py:309-345 | the loop's trace is paced, and it requests the stations to process in order |
| Collector.RunOrderAndPacing | src/main.py:309-345 | a run's trace is paced (each request directly after a cooldown, each cooldown directly before a request); it requests a prefix of the stations to process, in order, and all of them when it completes |
| Collector.RunCheckpointGating | src/main.py:322-339 | after a run the state file is unchanged, names a station whose data was fetched and whose push had no storage error, or is unreadable after such a station's failed write |
| Collector.TodoInCatalog | src/main.py:289-292 | the i-th station to process is the catalog's station at start+i |
| Collector.NextRunResumesAfterLastWrite | src/main.py:279-330 | when the last save that changed the file was written, the next run over the same catalog resumes right after that station |
| Collector.NextRunRestartsAfterFailedWrite | src/main.py:84-122 | when the last save that changed the file failed after emptying it, the file is unreadable and the next run starts from the first station |
| Collector.FailureBeforeLaterSaveIsSkipped | src/main.py:322-330 | a failed station before a later written save, with no failed write after it, is not processed by the next run |

## Left out

- `display_power_control_data` and `util.clear_screen` only print or clear
  the screen. The log lines are not modelled either.
- Backoff.Schedule: the random jitter `random.uniform(0, 1)` of the detail
  back-off is dropped. The trace holds only the integer part of each delay.
- Persist.BuildRow: the three params are kept as given. `json.dumps` and the
  SQL text are not modelled.
- The connection, the cursor and `conn.close()` are not modelled. Neither
  are the Fusion Solar client, its login and the HTTP transport. A failed
  connection is an input. A failed login is not modelled.
- Catalog.FetchedCatalog: station codes and names are modelled as strings,
  and non-string codes are not modelled. A station missing `stationCode` or
  `stationName` makes the source raise a `KeyError` (src/main.py:283,
  src/main.py:315-316). That is not modelled either.
- Persist.BuildRow: a payload whose `data` is JSON `null` or not an object is
  not modelled; the source would raise on it. `data` is a map when present.
- Checkpoint.CheckpointFile.Save: creating the state directory, opening
  the file and writing it are folded into one `SaveOutcome` input. A write
  that fails after `open` is taken to leave invalid JSON. Any proper prefix
  of the JSON text `save_state` writes is invalid.
- Collector.GetPowerControlMode: `time.sleep` is an event, not a delay.
  The exceptions it models are these: a failed connection; the
  `ValueError` of a negative cooldown sleep; and a detail request that
  raises. A raising detail request is either an exception other than a
  transport error from `post`, or a 200 response whose body is not a JSON
  object, so that `.json()` or `.get('success')` raises. The `ValueError` of
  a negative back-off sleep (src/main.py:251) is modelled only in
  `Detail.ApiRequestWithRetry`. `fetch_plant_power_control_data` always
  passes the default base delay of 5, so no run reaches it. Any other
  exception raised inside the `try` is not modelled. `save_state` catches its own errors, and
  `SaveOutcome` records them.
- Persist.Database.Push: a `conn.rollback()` that raises in the `except`
  handler (src/main.py:72-73) is not modelled. An example is a lost
  connection. In the source that exception leaves `push_to_database` and
  ends the sweep with `exit_code` 1. In the model, a storage error always
  returns false and the loop goes on to the next station.
- Collector.GetPowerControlMode: only the intended status is returned.
  `ExitStatusAsWritten` models the code's status, and the lemma
  `ExitStatusAsWrittenHidesFailures` states what it does.

## Findings

| source | as written | input that shows it | evidently intended | confidence | as-written member | corrected member |
|---|---|---|---|---|---|---|
| src/main.py:151-163, src/main.py:305, src/main.py:352-357 | `sys.exit(1)` inside the `try` raises `SystemExit`. `except Exception` does not catch it. The `finally` block's `sys.exit(exit_code)` replaces it while `exit_code` is still 0. A failed connection leaves `db_conn` as `None`, so no `sys.exit` runs at all. | any listing whose attempts all raise or return `[]`; or a state file whose deletion fails; or a failed connection. Each exits with status 0. | the process exits with the status passed to `sys.exit`, and with 1 after a failed connection | high (not executed) | Collector.ExitStatusAsWrittenHidesFailures | Collector.ExitStatusReportsFailure |
