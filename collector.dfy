/**
 * `get_power_control_mode`: connect, list the plants, resume after the
 * checkpoint, then sweep the remaining plants; and the status the process
 * exits with.
 */
module Collector {
  import opened Wrappers
  import opened Backoff
  import opened Catalog
  import opened Detail
  import opened Persist
  import opened Checkpoint
  import opened Resume
  import opened Sweep

  /**
   * How `get_power_control_mode` ends: it returns, an exception reaches its
   * `except` handlers (so `exit_code` becomes 1), or `sys.exit(code)` is
   * called inside its `try`.
   */
  datatype Termination = Returned | Failed | SysExit(code: int)

  /** What one run produces: how it ended, its events, the table and the state file afterwards. */
  datatype Run = Run(termination: Termination, trace: seq<Event>, table: Table, file: FileState)

  /** The back-off sleeps of the plant listing. */
  function ListingWaits(listing: nat -> ListOutcome, maxRetries: int): seq<Event>
  {
    RetrySleeps(Schedule(ListingBaseDelay, SleepsAfter(ListingCalls(listing, maxRetries))))
  }

  /** The stations a run processes, given the catalog it fetched and the state file it found. */
  function Todo(stations: seq<Station>, file: FileState, plantLimit: Option<int>): seq<Station>
  {
    StationsToProcess(stations, LoadedCode(file), plantLimit)
  }

  /** The state the sweep starts from. */
  function Start(table: Table, file: FileState): SweepState
  {
    SweepState(table, file, false)
  }

  /** The table and state file after the loop over `todo`, starting from the given ones. */
  function Swept(table: Table, file: FileState, todo: seq<Station>, env: Env): SweepState
  {
    SweepAfter(Start(table, file), Outcomes(todo, env), |todo|)
  }

  /** The events of the loop over `todo`. */
  function SweptTrace(todo: seq<Station>, cooldown: int, env: Env): seq<Event>
  {
    TraceAfter(Outcomes(todo, env), cooldown, |todo|)
  }

  /**
   * One run of `get_power_control_mode`, from the table and the state file
   * it starts with and the outcomes the outside world supplies: whether the
   * database connection fails, the listing attempts, the plant limit, the
   * cooldown, the per-station outcomes and whether deleting the state file
   * fails.
   */
  function Collect(table: Table, file: FileState, connectFails: bool, listing: nat -> ListOutcome, maxRetries: int,
                   plantLimit: Option<int>, cooldown: int, env: Env, removeFails: bool): Run
  {
    if connectFails then Run(Failed, [], table, file)
    else
      var waits := ListingWaits(listing, maxRetries);
      match FetchedCatalog(listing, maxRetries)
      case Exhausted => Run(SysExit(1), waits, table, file)
      case Catalog(stations) =>
        var todo := Todo(stations, file, plantLimit);
        if todo == [] then
          var removed := file.Absent? || !removeFails;
          Run(if removed then Returned else SysExit(1), waits, table, if removed then Absent else file)
        else if cooldown < 0 then Run(Failed, waits, table, file)
        else
          var final := Swept(table, file, todo, env);
          Run(if final.aborted then Failed else Returned, waits + SweptTrace(todo, cooldown, env), final.table, final.file)
  }

  /**
   * One pass of the loop body for `station`, the i-th processed: fetch its
   * data, push the payload or the failure payload, and save the state when
   * data was fetched and the push committed.  Its events follow the cooldown
   * that precedes it; `st` is the sweep state the pass starts from.
   */
  method ProcessStation(db: Database, state: CheckpointFile, station: Station, i: nat, env: Env,
                        ghost o: StationOutcome, ghost st: SweepState)
    returns (raised: bool, events: seq<Event>)
    requires o == Outcome(station, env, i)
    requires st == SweepState(db.table, state.contents, false)
    modifies db, state
    ensures events == Pass(o)
    ensures raised == Step(st, o).aborted && db.table == Step(st, o).table && state.contents == Step(st, o).file
  {
    var d, delays := FetchPlantPowerControlData(env.posts(i));
    events := [Requested(station.code)] + RetrySleeps(delays);
    assert o.code == station.code && o.delays == delays;
    if d.Aborted? {
      assert o.push.None?;
      return true, events;
    }
    var payload := if d.Fetched? then d.payload else FailurePayload;
    ghost var row := BuildRow(station.name, Some(payload), station.code, env.clock(i));
    var ok := db.Push(station.name, Some(payload), station.code, env.clock(i), env.storageErrors(i));
    ghost var p := PushOutcome(row, ok, d.Fetched?, env.saves(i));
    assert o.push == Some(p);
    var advances := d.Fetched? && ok;
    if advances {
      state.Save(station.code, env.saves(i));
    }
    events := events + ([Pushed(station.code, ok)] + if advances then [SavedState(station.code)] else []);
    raised := false;
  }

  /**
   * The loop of `get_power_control_mode` over a non-empty list of stations,
   * preceded by the initial cooldown: its events, and the table and state
   * file it leaves, are those of the sweep over the stations' outcomes.  A
   * negative cooldown makes the initial `time.sleep` raise `ValueError`
   * before any station is touched.
   */
  method ProcessStations(db: Database, state: CheckpointFile, todo: seq<Station>, cooldown: int, env: Env,
                         ghost outs: seq<StationOutcome>)
    returns (aborted: bool, trace: seq<Event>)
    requires todo != [] && |outs| == |todo|
    requires forall j {:trigger Outcome(todo[j], env, j)} :: 0 <= j < |todo| ==> outs[j] == Outcome(todo[j], env, j)
    modifies db, state
    ensures cooldown < 0 ==>
              aborted && trace == [] && db.table == old(db.table) && state.contents == old(state.contents)
    ensures cooldown >= 0 ==>
              var final := SweepAfter(Start(old(db.table), old(state.contents)), outs, |todo|);
              && aborted == final.aborted && db.table == final.table && state.contents == final.file
              && trace == TraceAfter(outs, cooldown, |todo|)
  {
    if cooldown < 0 {
      return true, [];    // time.sleep raises ValueError on a negative duration
    }
    ghost var init := Start(db.table, state.contents);
    trace := [CooldownSleep(cooldown)];
    var i := 0;
    while i < |todo|
      invariant 0 <= i <= |todo| && !Raised(outs, i)
      invariant db.table == SweepAfter(init, outs, i).table
      invariant state.contents == SweepAfter(init, outs, i).file
      invariant trace == TraceAfter(outs, cooldown, i) + if i < |todo| then [CooldownSleep(cooldown)] else []
    {
      SweepStep(init, outs, cooldown, i);
      var raised, events := ProcessStation(db, state, todo[i], i, env, outs[i], SweepAfter(init, outs, i));
      trace := trace + events;
      if raised {
        RaiseEndsSweep(init, outs, cooldown, i);
        return true, trace;
      }
      if i < |todo| - 1 {
        trace := trace + [CooldownSleep(cooldown)];
      }
      i := i + 1;
    }
    SweepAbortsOnlyOnException(init, outs, i);
    return false, trace;
  }

  /**
   * `get_power_control_mode`: how it ends, its events, and the status the
   * process exits with (the intended one; see `ExitStatusAsWritten`).
   */
  method GetPowerControlMode(db: Database, state: CheckpointFile, connectFails: bool, listing: nat -> ListOutcome,
                             maxRetries: int, plantLimit: Option<int>, cooldown: int, env: Env, removeFails: bool)
    returns (t: Termination, trace: seq<Event>, status: int)
    modifies db, state
    ensures Run(t, trace, db.table, state.contents) ==
            Collect(old(db.table), old(state.contents), connectFails, listing, maxRetries, plantLimit, cooldown, env, removeFails)
    ensures status == ExitStatus(t)
  {
    if connectFails {
      t, trace := Failed, [];
    } else {
      var catalog, calls, waits := FetchStations(listing, maxRetries);
      trace := RetrySleeps(waits);
      if catalog.Exhausted? {
        t := SysExit(1);
      } else {
        var last := state.Load();
        var todo := StationsToProcess(catalog.stations, last, plantLimit);
        assert todo == Todo(catalog.stations, old(state.contents), plantLimit);
        if |todo| == 0 {
          var removed := state.Remove(removeFails);
          t := if removed then Returned else SysExit(1);
        } else {
          var aborted, events := ProcessStations(db, state, todo, cooldown, env, Outcomes(todo, env));
          if cooldown < 0 {
            assert trace + events == trace;
          } else {
            assert events == SweptTrace(todo, cooldown, env);
          }
          trace := trace + events;
          t := if aborted then Failed else Returned;
        }
      }
    }
    status := ExitStatus(t);
  }

  // ---------------------------------------------------------------------
  // Exit status

  /**
   * The status the process exits with, as the `finally` block decides it:
   * `sys.exit(exit_code)` runs only when the connection was opened, and it
   * replaces a `SystemExit` raised inside the `try`; `exit_code` is 1 only
   * after an exception reached an `except` handler.  Without a connection
   * the script ends normally, unless `sys.exit` was called.
   */
  function ExitStatusAsWritten(connected: bool, t: Termination): int
  {
    if !connected then (if t.SysExit? then t.code else 0)
    else if t.Failed? then 1 else 0
  }

  /** The status evidently intended: the code given to `sys.exit`, or 1 after an exception. */
  function ExitStatus(t: Termination): int
  {
    match t
    case Returned => 0
    case Failed => 1
    case SysExit(code) => code
  }

  /** Why a run did not complete its work, if it did not. */
  predicate RunFailed(table: Table, file: FileState, connectFails: bool, listing: nat -> ListOutcome, maxRetries: int,
                      plantLimit: Option<int>, cooldown: int, env: Env, removeFails: bool)
  {
    || connectFails
    || FetchedCatalog(listing, maxRetries).Exhausted?
    || (var todo := Todo(FetchedCatalog(listing, maxRetries).stations, file, plantLimit);
        if todo == [] then !file.Absent? && removeFails
        else cooldown < 0 || Raised(Outcomes(todo, env), |todo|))
  }

  /**
   * How a run ends: an exception on connecting, `sys.exit(1)` when the
   * listing is exhausted or the state file cannot be deleted, an exception
   * when a detail request raises, and a normal return otherwise.
   */
  lemma CollectTermination(table: Table, file: FileState, connectFails: bool, listing: nat -> ListOutcome,
                           maxRetries: int, plantLimit: Option<int>, cooldown: int, env: Env, removeFails: bool)
    ensures var catalog := FetchedCatalog(listing, maxRetries);
            Collect(table, file, connectFails, listing, maxRetries, plantLimit, cooldown, env, removeFails).termination ==
              if connectFails then Failed
              else if catalog.Exhausted? then SysExit(1)
              else
                var todo := Todo(catalog.stations, file, plantLimit);
                if todo == [] then (if file.Absent? || !removeFails then Returned else SysExit(1))
                else if cooldown < 0 then Failed
                else if Raised(Outcomes(todo, env), |todo|) then Failed
                else Returned
  {
    var catalog := FetchedCatalog(listing, maxRetries);
    if !connectFails && catalog.Catalog? {
      var todo := Todo(catalog.stations, file, plantLimit);
      if todo != [] && cooldown >= 0 {
        SweepAbortsOnlyOnException(Start(table, file), Outcomes(todo, env), |todo|);
      }
    }
  }

  /**
   * As written, a run exits non-zero only when an exception reached the
   * `except` handlers after the connection was opened: a negative cooldown
   * or a raised detail request.  A failed connection, an exhausted plant
   * listing and a state file that could not be deleted all exit 0.
   */
  lemma ExitStatusAsWrittenHidesFailures(table: Table, file: FileState, connectFails: bool, listing: nat -> ListOutcome,
                                         maxRetries: int, plantLimit: Option<int>, cooldown: int, env: Env, removeFails: bool)
    ensures var r := Collect(table, file, connectFails, listing, maxRetries, plantLimit, cooldown, env, removeFails);
            var catalog := FetchedCatalog(listing, maxRetries);
            ExitStatusAsWritten(!connectFails, r.termination) != 0 <==>
              !connectFails && catalog.Catalog? && (var todo := Todo(catalog.stations, file, plantLimit);
                                                    todo != [] && (cooldown < 0 || Raised(Outcomes(todo, env), |todo|)))
  {
    CollectTermination(table, file, connectFails, listing, maxRetries, plantLimit, cooldown, env, removeFails);
  }

  /** With the intended status, a run exits non-zero exactly when it failed. */
  lemma ExitStatusReportsFailure(table: Table, file: FileState, connectFails: bool, listing: nat -> ListOutcome,
                                 maxRetries: int, plantLimit: Option<int>, cooldown: int, env: Env, removeFails: bool)
    ensures var r := Collect(table, file, connectFails, listing, maxRetries, plantLimit, cooldown, env, removeFails);
            ExitStatus(r.termination) != 0 <==>
              RunFailed(table, file, connectFails, listing, maxRetries, plantLimit, cooldown, env, removeFails)
  {
    CollectTermination(table, file, connectFails, listing, maxRetries, plantLimit, cooldown, env, removeFails);
  }

  // ---------------------------------------------------------------------
  // Properties of a whole run

  /** A run with nothing left to process requests nothing, sleeps no cooldown and leaves the table alone. */
  lemma UpToDateRunDoesNoWork(table: Table, file: FileState, listing: nat -> ListOutcome, maxRetries: int,
                              plantLimit: Option<int>, cooldown: int, env: Env, removeFails: bool)
    requires FetchedCatalog(listing, maxRetries).Catalog?
    requires Todo(FetchedCatalog(listing, maxRetries).stations, file, plantLimit) == []
    ensures var r := Collect(table, file, false, listing, maxRetries, plantLimit, cooldown, env, removeFails);
            && r.table == table
            && RequestedCodes(r.trace) == [] && Cooldowns(r.trace) == 0
            && (r.termination.Returned? <==> file.Absent? || !removeFails)
            && r.file == (if r.termination.Returned? then Absent else file)
  {
    NoSleepsCounted(Schedule(ListingBaseDelay, SleepsAfter(ListingCalls(listing, maxRetries))));
  }

  /**
   * A negative cooldown with stations left to process: the initial
   * `time.sleep` raises, so the run fails before any detail request, with
   * the table and the state file as they were.
   */
  lemma NegativeCooldownFailsEarly(table: Table, file: FileState, listing: nat -> ListOutcome, maxRetries: int,
                                   plantLimit: Option<int>, cooldown: int, env: Env, removeFails: bool)
    requires FetchedCatalog(listing, maxRetries).Catalog?
    requires Todo(FetchedCatalog(listing, maxRetries).stations, file, plantLimit) != []
    requires cooldown < 0
    ensures var r := Collect(table, file, false, listing, maxRetries, plantLimit, cooldown, env, removeFails);
            && r.termination == Failed && ExitStatus(r.termination) == 1
            && RequestedCodes(r.trace) == [] && Cooldowns(r.trace) == 0
            && r.table == table && r.file == file
  {
    NoSleepsCounted(Schedule(ListingBaseDelay, SleepsAfter(ListingCalls(listing, maxRetries))));
  }

  /** Ordering and pacing of the loop over `todo`, in terms of the stations themselves. */
  lemma SweptOrderAndPacing(todo: seq<Station>, cooldown: int, env: Env)
    ensures var tr := SweptTrace(todo, cooldown, env);
            && Paced(tr)
            && Cooldowns(tr) == |RequestedCodes(tr)|
            && RequestedCodes(tr) <= Codes(todo)
            && (!Raised(Outcomes(todo, env), |todo|) ==> RequestedCodes(tr) == Codes(todo))
  {
    var outs := Outcomes(todo, env);
    SweepPacing(outs, cooldown, |todo|);
    SweepRequestOrder(outs, cooldown, |todo|);
    assert OutcomeCodes(outs, |todo|) == Codes(todo);
  }

  /**
   * Ordering and pacing of a run: the plants are requested in the order of
   * the stations to process, each directly after its own cooldown, all of
   * them when the run completes.
   */
  lemma RunOrderAndPacing(table: Table, file: FileState, listing: nat -> ListOutcome, maxRetries: int,
                          plantLimit: Option<int>, cooldown: int, env: Env, removeFails: bool)
    requires FetchedCatalog(listing, maxRetries).Catalog?
    ensures var r := Collect(table, file, false, listing, maxRetries, plantLimit, cooldown, env, removeFails);
            var todo := Todo(FetchedCatalog(listing, maxRetries).stations, file, plantLimit);
            && Paced(r.trace)
            && Cooldowns(r.trace) == |RequestedCodes(r.trace)|
            && RequestedCodes(r.trace) <= Codes(todo)
            && (r.termination.Returned? ==> RequestedCodes(r.trace) == Codes(todo))
  {
    var waits := ListingWaits(listing, maxRetries);
    NoSleepsCounted(Schedule(ListingBaseDelay, SleepsAfter(ListingCalls(listing, maxRetries))));
    RetrySleepsPaced(Schedule(ListingBaseDelay, SleepsAfter(ListingCalls(listing, maxRetries))));
    var todo := Todo(FetchedCatalog(listing, maxRetries).stations, file, plantLimit);
    if todo != [] && cooldown >= 0 {
      var tr := SweptTrace(todo, cooldown, env);
      CountsDistribute(waits, tr);
      SweptOrderAndPacing(todo, cooldown, env);
      PacedConcat(waits, tr);
      SweepAbortsOnlyOnException(Start(table, file), Outcomes(todo, env), |todo|);
    }
  }

  /**
   * Checkpoint gating over a run: the state file afterwards is the one the
   * run found, or it was changed by the save of a station whose data was
   * fetched and whose push committed: it names that station when the write
   * succeeded, and it is unreadable when the write failed after `open`
   * emptied it.  A station whose request gave no data or whose push failed
   * is never saved as the checkpoint.
   */
  lemma RunCheckpointGating(table: Table, file: FileState, listing: nat -> ListOutcome, maxRetries: int,
                            plantLimit: Option<int>, cooldown: int, env: Env, removeFails: bool)
    requires FetchedCatalog(listing, maxRetries).Catalog?
    requires Todo(FetchedCatalog(listing, maxRetries).stations, file, plantLimit) != []
    ensures var r := Collect(table, file, false, listing, maxRetries, plantLimit, cooldown, env, removeFails);
            var todo := Todo(FetchedCatalog(listing, maxRetries).stations, file, plantLimit);
            || r.file == file
            || exists j :: 0 <= j < |todo| && StationDetail(env, j).Fetched? && !env.storageErrors(j)
                             && ((env.saves(j) == Written && r.file == Saved(todo[j].code))
                                 || (env.saves(j) == WriteFailed && r.file == Unreadable))
  {
    if cooldown >= 0 {
      var todo := Todo(FetchedCatalog(listing, maxRetries).stations, file, plantLimit);
      var outs := Outcomes(todo, env);
      var f := SweepAfter(Start(table, file), outs, |todo|).file;
      CheckpointOnlyFromAdvances(Start(table, file), outs, |todo|);
      if f != file {
        var j :| 0 <= j < |todo| && outs[j].push.Some? && outs[j].push.value.Advances()
                 && ((outs[j].push.value.save == Written && f == Saved(outs[j].code))
                     || (outs[j].push.value.save == WriteFailed && f == Unreadable));
        OutcomeGating(todo[j], env, j);
      }
    }
  }

  /** The stations to process are the catalog from the start index on. */
  lemma TodoInCatalog(catalog: seq<Station>, file: FileState, plantLimit: Option<int>, m: nat)
    requires m < |Todo(catalog, file, plantLimit)|
    ensures var s := StartIndex(catalog, LoadedCode(file));
            s + m < |catalog| && Todo(catalog, file, plantLimit)[m] == catalog[s + m]
  {
    var s := StartIndex(catalog, LoadedCode(file));
    assert Todo(catalog, file, plantLimit)[m] == catalog[s..][m];
  }

  /**
   * The checkpoint is positional: after a sweep over the stations to process
   * that ran to the end and whose last save that changed the file was
   * written for the j-th of them, the next run over the same catalog resumes
   * right after that station.
   */
  lemma NextRunResumesAfterLastWrite(catalog: seq<Station>, table: Table, file: FileState, plantLimit: Option<int>,
                                     env: Env, j: nat)
    requires DistinctCodes(catalog)
    requires var todo := Todo(catalog, file, plantLimit);
             && !Swept(table, file, todo, env).aborted
             && LastChange(Outcomes(todo, env), |todo|) == Some(j)
             && Outcomes(todo, env)[j].push.value.save == Written
             && todo[j].code != ""
    ensures var next := Swept(table, file, Todo(catalog, file, plantLimit), env).file;
            StartIndex(catalog, LoadedCode(next)) == StartIndex(catalog, LoadedCode(file)) + j + 1
  {
    var todo := Todo(catalog, file, plantLimit);
    var s := StartIndex(catalog, LoadedCode(file));
    var code := todo[j].code;
    CheckpointIsLastChange(Start(table, file), Outcomes(todo, env), |todo|);
    assert Swept(table, file, todo, env).file == Saved(code);
    SaveLoadRoundTrip(code);
    TodoInCatalog(catalog, file, plantLimit, j);
    ResumeAfter(catalog, s + j, None);
  }

  /**
   * A write that failed after `open` emptied the state file, with no later
   * save changing it, leaves an unreadable file: the next run starts again
   * from the first station.
   */
  lemma NextRunRestartsAfterFailedWrite(catalog: seq<Station>, table: Table, file: FileState, plantLimit: Option<int>,
                                        env: Env, j: nat)
    requires var todo := Todo(catalog, file, plantLimit);
             && !Swept(table, file, todo, env).aborted
             && LastChange(Outcomes(todo, env), |todo|) == Some(j)
             && Outcomes(todo, env)[j].push.value.save == WriteFailed
    ensures var next := Swept(table, file, Todo(catalog, file, plantLimit), env).file;
            next == Unreadable && LoadedCode(next) == None && StartIndex(catalog, LoadedCode(next)) == 0
  {
    var todo := Todo(catalog, file, plantLimit);
    CheckpointIsLastChange(Start(table, file), Outcomes(todo, env), |todo|);
  }

  /**
   * A station that failed is skipped by the next run when a later station of
   * the same sweep was saved and no save after that one failed to write,
   * although the warning for a failed push says it will be retried: the next
   * run starts after it.
   */
  lemma FailureBeforeLaterSaveIsSkipped(catalog: seq<Station>, table: Table, file: FileState, plantLimit: Option<int>,
                                        env: Env, j: nat, k: nat)
    requires DistinctCodes(catalog) && forall i :: 0 <= i < |catalog| ==> catalog[i].code != ""
    requires var todo := Todo(catalog, file, plantLimit);
             var outs := Outcomes(todo, env);
             && j < k < |todo|
             && !Swept(table, file, todo, env).aborted
             && outs[k].push.Some? && outs[k].push.value.Writes()
             && forall i :: k < i < |todo| && outs[i].push.Some? && outs[i].push.value.Advances() ==>
                  outs[i].push.value.save != WriteFailed
    ensures var next := Swept(table, file, Todo(catalog, file, plantLimit), env).file;
            StartIndex(catalog, LoadedCode(next)) > StartIndex(catalog, LoadedCode(file)) + j
  {
    var todo := Todo(catalog, file, plantLimit);
    var outs := Outcomes(todo, env);
    LastChangeIsWrite(outs, |todo|, k);
    var m := LastChange(outs, |todo|).value;
    TodoInCatalog(catalog, file, plantLimit, m);
    NextRunResumesAfterLastWrite(catalog, table, file, plantLimit, env, m);
  }
}
