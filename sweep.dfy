/**
 * The collection sweep of `get_power_control_mode`, specified as a fold over
 * the stations to process: for each one, a cooldown sleep, the detail
 * request, a push of the payload (or of a failure payload), and a
 * `save_state` only when data was fetched and the push committed.  An
 * exception from the detail request ends the sweep.
 *
 * The fold runs over `StationOutcome` values, what happened to each station;
 * `Outcome` derives them from the outcomes the outside world supplies.
 */
module Sweep {
  import opened Wrappers
  import opened Backoff
  import opened Catalog
  import opened Detail
  import opened Persist
  import opened Checkpoint

  /** What a sweep does, in order. */
  datatype Event =
    | CooldownSleep(seconds: int)        // time.sleep(cooldown_seconds)
    | RetrySleep(seconds: int)           // a back-off sleep inside a retry loop
    | Requested(plantCode: string)       // fetch_plant_power_control_data is entered
    | Pushed(plantCode: string, committed: bool)  // push_to_database and its result
    | SavedState(plantCode: string)      // save_state is called

  /**
   * The outcomes the outside world supplies for the i-th station processed:
   * its detail request attempts, whether its push hits a storage error, how
   * its `save_state` fares, and the value of `NOW()` at its push.
   */
  datatype Env = Env(
    posts: nat -> nat -> PostOutcome,
    storageErrors: nat -> bool,
    saves: nat -> SaveOutcome,
    clock: nat -> int)

  /** The push of one station: the row, whether it committed, whether data had been fetched, how its save would fare. */
  datatype PushOutcome = PushOutcome(row: Row, committed: bool, fetched: bool, save: SaveOutcome)
  {
    /** `save_state` is called. */
    predicate Advances() { fetched && committed }

    /** `save_state` is called and writes the state file. */
    predicate Writes() { Advances() && save == Written }

    /** `save_state` is called and changes the state file: written, or emptied by a failed write. */
    predicate Changes() { Advances() && (save == Written || save == WriteFailed) }
  }

  /** What happened to one station: its back-off sleeps, and its push unless the request raised. */
  datatype StationOutcome = StationOutcome(code: string, delays: seq<int>, push: Option<PushOutcome>)

  /** The table, the state file, and whether an exception ended the sweep. */
  datatype SweepState = SweepState(table: Table, file: FileState, aborted: bool)

  /** `failure_payload`, pushed when no data was received. */
  const FailurePayload := Payload(false, Some("Failed to retrieve data after multiple retries."), None)

  function RetrySleeps(delays: seq<int>): (es: seq<Event>)
    ensures |es| == |delays|
    ensures forall k :: 0 <= k < |delays| ==> es[k] == RetrySleep(delays[k])
  {
    seq(|delays|, k requires 0 <= k < |delays| => RetrySleep(delays[k]))
  }

  /** The result of the i-th station's detail request. */
  function StationDetail(env: Env, i: nat): DetailResult
  {
    Classify(RequestOutcome(env.posts(i), DetailMaxRetries))
  }

  /** What happens to station `s`, the i-th processed, under `env`. */
  function Outcome(s: Station, env: Env, i: nat): StationOutcome
  {
    var d := StationDetail(env, i);
    var delays := Schedule(DetailBaseDelay, SleepsAfter(RequestCalls(env.posts(i), DetailMaxRetries)));
    if d.Aborted? then StationOutcome(s.code, delays, None)
    else
      var payload := if d.Fetched? then d.payload else FailurePayload;
      var row := BuildRow(s.name, Some(payload), s.code, env.clock(i));
      StationOutcome(s.code, delays, Some(PushOutcome(row, !env.storageErrors(i), d.Fetched?, env.saves(i))))
  }

  /** The outcomes of a list of stations, in list order. */
  function Outcomes(stations: seq<Station>, env: Env): (outs: seq<StationOutcome>)
    ensures |outs| == |stations|
    ensures forall i :: 0 <= i < |stations| ==> outs[i].code == stations[i].code
    ensures forall i {:trigger Outcome(stations[i], env, i)} :: 0 <= i < |stations| ==> outs[i] == Outcome(stations[i], env, i)
  {
    if stations == [] then []
    else
      var n := |stations| - 1;
      Outcomes(stations[..n], env) + [Outcome(stations[n], env, n)]
  }

  /**
   * Checkpoint gating per station: the push happens unless the request
   * raised; `save_state` is called exactly when data was fetched and the push
   * committed; a fetch that gave no data pushes a failure row keyed by the
   * station code; and every push carries the station's catalog name.
   */
  lemma OutcomeGating(s: Station, env: Env, i: nat)
    ensures var o := Outcome(s, env, i);
            && o.code == s.code
            && (o.push.None? <==> StationDetail(env, i).Aborted?)
            && (o.push.Some? ==> (o.push.value.Advances() <==> StationDetail(env, i).Fetched? && !env.storageErrors(i)))
            && (o.push.Some? ==> o.push.value.committed == !env.storageErrors(i))
            && (o.push.Some? ==> o.push.value.row.apiSuccess == StationDetail(env, i).Fetched?)
            && (o.push.Some? && !o.push.value.fetched ==> o.push.value.row.plantCode == s.code)
            && (o.push.Some? ==> o.push.value.row.plantName == s.name)
  {
    var d := StationDetail(env, i);
    if d.Fetched? {
      assert d.payload.success;
    }
  }

  /** The events of a push: the push, then `save_state` when the station advances. */
  function PushEvents(o: StationOutcome): seq<Event>
  {
    match o.push
    case None => []
    case Some(p) => [Pushed(o.code, p.committed)] + if p.Advances() then [SavedState(o.code)] else []
  }

  /** The events of one pass of the loop body after its cooldown. */
  function Pass(o: StationOutcome): seq<Event>
  {
    [Requested(o.code)] + RetrySleeps(o.delays) + PushEvents(o)
  }

  /** The events of one pass of the loop body, with the cooldown that precedes it. */
  function Block(o: StationOutcome, cooldown: int): seq<Event>
  {
    [CooldownSleep(cooldown)] + Pass(o)
  }

  /** What one pass of the loop body does to the table and the state file. */
  function Step(st: SweepState, o: StationOutcome): SweepState
  {
    match o.push
    case None => st.(aborted := true)
    case Some(p) =>
      SweepState(
        if p.committed then Upsert(st.table, p.row) else st.table,
        if p.Advances() then AfterSave(st.file, o.code, p.save) else st.file,
        false)
  }

  /** The table and state file after the loop has handled the first n stations (or stopped at an exception). */
  function SweepAfter(init: SweepState, outs: seq<StationOutcome>, n: nat): SweepState
    requires n <= |outs|
  {
    if n == 0 then init
    else
      var st := SweepAfter(init, outs, n - 1);
      if st.aborted then st else Step(st, outs[n - 1])
  }

  /** Some detail request among the first n stations raised. */
  predicate Raised(outs: seq<StationOutcome>, n: nat)
    requires n <= |outs|
  {
    n > 0 && (Raised(outs, n - 1) || outs[n - 1].push.None?)
  }

  /** The events of the loop over the first n stations, up to the pass whose request raised. */
  function TraceAfter(outs: seq<StationOutcome>, cooldown: int, n: nat): seq<Event>
    requires n <= |outs|
  {
    if n == 0 then []
    else if Raised(outs, n - 1) then TraceAfter(outs, cooldown, n - 1)
    else TraceAfter(outs, cooldown, n - 1) + Block(outs[n - 1], cooldown)
  }

  /** A request raised among the first n stations exactly when one of them has no push. */
  lemma {:induction false} RaisedMeans(outs: seq<StationOutcome>, n: nat)
    requires n <= |outs|
    ensures Raised(outs, n) <==> exists j :: 0 <= j < n && outs[j].push.None?
    decreases n
  {
    if n > 0 {
      RaisedMeans(outs, n - 1);
      if outs[n - 1].push.None? {
        assert exists j :: 0 <= j < n && outs[j].push.None? by {
          assert outs[n - 1].push.None?;
        }
      }
    }
  }

  lemma {:induction false} RaisedStays(outs: seq<StationOutcome>, m: nat, n: nat)
    requires m <= n <= |outs| && Raised(outs, m)
    ensures Raised(outs, n)
    decreases n
  {
    if n > m {
      RaisedStays(outs, m, n - 1);
    }
  }

  /** The sweep stops exactly when some detail request raised. */
  lemma {:induction false} SweepAbortsOnlyOnException(init: SweepState, outs: seq<StationOutcome>, n: nat)
    requires n <= |outs| && !init.aborted
    ensures SweepAfter(init, outs, n).aborted <==> Raised(outs, n)
    decreases n
  {
    if n > 0 {
      SweepAbortsOnlyOnException(init, outs, n - 1);
    }
  }

  /** One more station, when no request has raised yet: one more step and one more block of events. */
  lemma SweepStep(init: SweepState, outs: seq<StationOutcome>, cooldown: int, i: nat)
    requires i < |outs| && !Raised(outs, i) && !init.aborted
    ensures !SweepAfter(init, outs, i).aborted
    ensures SweepAfter(init, outs, i + 1) == Step(SweepAfter(init, outs, i), outs[i])
    ensures TraceAfter(outs, cooldown, i + 1) == TraceAfter(outs, cooldown, i) + [CooldownSleep(cooldown)] + Pass(outs[i])
  {
    SweepAbortsOnlyOnException(init, outs, i);
    assert TraceAfter(outs, cooldown, i + 1) == TraceAfter(outs, cooldown, i) + Block(outs[i], cooldown);
  }

  /** When the i-th request raises, the sweep ends there: nothing later changes the state or the events. */
  lemma RaiseEndsSweep(init: SweepState, outs: seq<StationOutcome>, cooldown: int, i: nat)
    requires i < |outs| && !Raised(outs, i) && !init.aborted && outs[i].push.None?
    ensures SweepAfter(init, outs, |outs|) == SweepAfter(init, outs, i + 1)
    ensures TraceAfter(outs, cooldown, |outs|) == TraceAfter(outs, cooldown, i + 1)
  {
    AbortIsFinal(init, outs, i + 1, |outs|);
    TraceIsFinal(outs, cooldown, i + 1, |outs|);
  }

  /** Once an exception has ended the sweep, the later stations change nothing. */
  lemma {:induction false} AbortIsFinal(init: SweepState, outs: seq<StationOutcome>, m: nat, n: nat)
    requires m <= n <= |outs|
    requires Raised(outs, m) && !init.aborted
    ensures SweepAfter(init, outs, n) == SweepAfter(init, outs, m)
    decreases n
  {
    if n > m {
      AbortIsFinal(init, outs, m, n - 1);
      RaisedStays(outs, m, n - 1);
      SweepAbortsOnlyOnException(init, outs, n - 1);
    }
  }

  /** Once a request has raised, the later stations add no events. */
  lemma {:induction false} TraceIsFinal(outs: seq<StationOutcome>, cooldown: int, m: nat, n: nat)
    requires m <= n <= |outs|
    requires Raised(outs, m)
    ensures TraceAfter(outs, cooldown, n) == TraceAfter(outs, cooldown, m)
    decreases n
  {
    if n > m {
      TraceIsFinal(outs, cooldown, m, n - 1);
      RaisedStays(outs, m, n - 1);
    }
  }

  // ---------------------------------------------------------------------
  // Ordering and pacing

  /** The number of cooldown sleeps in a trace. */
  function Cooldowns(es: seq<Event>): nat
  {
    if es == [] then 0 else Cooldowns(es[..|es| - 1]) + (if es[|es| - 1].CooldownSleep? then 1 else 0)
  }

  /** The plant codes whose detail was requested, in order. */
  function RequestedCodes(es: seq<Event>): seq<string>
  {
    if es == [] then []
    else RequestedCodes(es[..|es| - 1]) + (if es[|es| - 1].Requested? then [es[|es| - 1].plantCode] else [])
  }

  /** The plant codes passed to `save_state`, in order. */
  function SavedCodes(es: seq<Event>): seq<string>
  {
    if es == [] then []
    else SavedCodes(es[..|es| - 1]) + (if es[|es| - 1].SavedState? then [es[|es| - 1].plantCode] else [])
  }

  lemma {:induction false} CountsDistribute(a: seq<Event>, b: seq<Event>)
    ensures Cooldowns(a + b) == Cooldowns(a) + Cooldowns(b)
    ensures RequestedCodes(a + b) == RequestedCodes(a) + RequestedCodes(b)
    ensures SavedCodes(a + b) == SavedCodes(a) + SavedCodes(b)
    decreases |b|
  {
    if b == [] {
      assert a + b == a;
    } else {
      var b' := b[..|b| - 1];
      assert (a + b)[..|a + b| - 1] == a + b';
      CountsDistribute(a, b');
    }
  }

  lemma {:induction false} NoSleepsCounted(delays: seq<int>)
    ensures Cooldowns(RetrySleeps(delays)) == 0
    ensures RequestedCodes(RetrySleeps(delays)) == []
    ensures SavedCodes(RetrySleeps(delays)) == []
    decreases |delays|
  {
    if delays != [] {
      var es := RetrySleeps(delays);
      assert es[..|es| - 1] == RetrySleeps(delays[..|delays| - 1]);
      NoSleepsCounted(delays[..|delays| - 1]);
    }
  }

  lemma CountsOfOne(e: Event)
    ensures Cooldowns([e]) == if e.CooldownSleep? then 1 else 0
    ensures RequestedCodes([e]) == if e.Requested? then [e.plantCode] else []
    ensures SavedCodes([e]) == if e.SavedState? then [e.plantCode] else []
  {
    assert [e][..0] == [];
  }

  /** The events before the push: one request and no cooldown. */
  lemma HeadCounts(code: string, delays: seq<int>)
    ensures var head := [Requested(code)] + RetrySleeps(delays);
            && Cooldowns(head) == 0
            && RequestedCodes(head) == [code]
            && SavedCodes(head) == []
  {
    CountsOfOne(Requested(code));
    NoSleepsCounted(delays);
    CountsDistribute([Requested(code)], RetrySleeps(delays));
  }

  /** The events of the push: a save exactly when the station advances. */
  lemma TailCounts(code: string, p: PushOutcome)
    ensures var tail := [Pushed(code, p.committed)] + if p.Advances() then [SavedState(code)] else [];
            && Cooldowns(tail) == 0
            && RequestedCodes(tail) == []
            && SavedCodes(tail) == if p.Advances() then [code] else []
  {
    var pushed := Pushed(code, p.committed);
    CountsOfOne(pushed);
    if p.Advances() {
      CountsOfOne(SavedState(code));
      CountsDistribute([pushed], [SavedState(code)]);
    } else {
      assert [pushed] + [] == [pushed];
    }
  }

  /** A pass has one request, and a save exactly when its station advances. */
  lemma PassCounts(o: StationOutcome)
    ensures Cooldowns(Pass(o)) == 0
    ensures RequestedCodes(Pass(o)) == [o.code]
    ensures SavedCodes(Pass(o)) == if o.push.Some? && o.push.value.Advances() then [o.code] else []
  {
    var head := [Requested(o.code)] + RetrySleeps(o.delays);
    HeadCounts(o.code, o.delays);
    if o.push.Some? {
      TailCounts(o.code, o.push.value);
    }
    CountsDistribute(head, PushEvents(o));
  }

  /** A block has one cooldown, one request, and a save exactly when its station advances. */
  lemma BlockCounts(o: StationOutcome, cooldown: int)
    ensures Cooldowns(Block(o, cooldown)) == 1
    ensures RequestedCodes(Block(o, cooldown)) == [o.code]
    ensures SavedCodes(Block(o, cooldown)) == if o.push.Some? && o.push.value.Advances() then [o.code] else []
  {
    var c := CooldownSleep(cooldown);
    var pass := Pass(o);
    assert Block(o, cooldown) == [c] + pass;
    CountsOfOne(c);
    PassCounts(o);
    CountsDistribute([c], pass);
  }

  /** The codes of the first n outcomes. */
  function OutcomeCodes(outs: seq<StationOutcome>, n: nat): (codes: seq<string>)
    requires n <= |outs|
    ensures |codes| == n && forall j :: 0 <= j < n ==> codes[j] == outs[j].code
  {
    if n == 0 then [] else OutcomeCodes(outs, n - 1) + [outs[n - 1].code]
  }

  /** Every request directly follows a cooldown sleep, and every cooldown sleep is directly followed by a request. */
  predicate Paced(tr: seq<Event>)
  {
    forall p {:trigger tr[p]} :: 0 <= p < |tr| ==>
      && (tr[p].Requested? ==> 0 < p && tr[p - 1].CooldownSleep?)
      && (tr[p].CooldownSleep? ==> p + 1 < |tr| && tr[p + 1].Requested?)
  }

  /** Neither a request nor a cooldown sleep. */
  predicate Quiet(tr: seq<Event>)
  {
    forall p :: 0 <= p < |tr| ==> !tr[p].Requested? && !tr[p].CooldownSleep?
  }

  lemma PacedConcat(a: seq<Event>, b: seq<Event>)
    requires Paced(a) && Paced(b)
    ensures Paced(a + b)
  {
    var ab := a + b;
    forall p | 0 <= p < |ab|
      ensures ab[p].Requested? ==> 0 < p && ab[p - 1].CooldownSleep?
      ensures ab[p].CooldownSleep? ==> p + 1 < |ab| && ab[p + 1].Requested?
    {
      if p < |a| {
        assert ab[p] == a[p];
        if a[p].Requested? {
          assert ab[p - 1] == a[p - 1];
        }
        if a[p].CooldownSleep? {
          assert ab[p + 1] == a[p + 1];
        }
      } else {
        var q := p - |a|;
        assert ab[p] == b[q];
        if b[q].Requested? {
          assert ab[p - 1] == b[q - 1];
        }
        if b[q].CooldownSleep? {
          assert ab[p + 1] == b[q + 1];
        }
      }
    }
  }

  /** Back-off sleeps are neither requests nor cooldowns. */
  lemma RetrySleepsPaced(delays: seq<int>)
    ensures Quiet(RetrySleeps(delays)) && Paced(RetrySleeps(delays))
  {
  }

  /** A block is paced: its cooldown, then its request, then no other request or cooldown. */
  lemma BlockPaced(o: StationOutcome, cooldown: int)
    ensures Paced(Block(o, cooldown))
  {
    var rest := RetrySleeps(o.delays) + PushEvents(o);
    assert Quiet(rest) by {
      forall p | 0 <= p < |rest|
        ensures !rest[p].Requested? && !rest[p].CooldownSleep?
      {
        if p < |o.delays| {
          assert rest[p] == RetrySleep(o.delays[p]);
        }
      }
    }
    var block := Block(o, cooldown);
    assert block == [CooldownSleep(cooldown), Requested(o.code)] + rest;
    forall p | 2 <= p < |block|
      ensures !block[p].Requested? && !block[p].CooldownSleep?
    {
      assert block[p] == rest[p - 2];
    }
  }

  /** The counts of a trace grown by one block. */
  lemma AppendBlockCounts(prev: seq<Event>, o: StationOutcome, cooldown: int)
    ensures Cooldowns(prev + Block(o, cooldown)) == Cooldowns(prev) + 1
    ensures RequestedCodes(prev + Block(o, cooldown)) == RequestedCodes(prev) + [o.code]
    ensures SavedCodes(prev + Block(o, cooldown)) ==
              SavedCodes(prev) + if o.push.Some? && o.push.value.Advances() then [o.code] else []
  {
    BlockCounts(o, cooldown);
    CountsDistribute(prev, Block(o, cooldown));
  }

  /** The counts of the trace after one more station, in terms of those before it. */
  lemma TraceStepCounts(outs: seq<StationOutcome>, cooldown: int, n: nat)
    requires 0 < n <= |outs|
    ensures Raised(outs, n - 1) ==> TraceAfter(outs, cooldown, n) == TraceAfter(outs, cooldown, n - 1)
    ensures var prev := TraceAfter(outs, cooldown, n - 1);
            var tr := TraceAfter(outs, cooldown, n);
            var o := outs[n - 1];
            !Raised(outs, n - 1) ==>
              && Cooldowns(tr) == Cooldowns(prev) + 1
              && RequestedCodes(tr) == RequestedCodes(prev) + [o.code]
              && SavedCodes(tr) == SavedCodes(prev) + if o.push.Some? && o.push.value.Advances() then [o.code] else []
  {
    if !Raised(outs, n - 1) {
      AppendBlockCounts(TraceAfter(outs, cooldown, n - 1), outs[n - 1], cooldown);
    }
  }

  /**
   * Pacing: every detail request of a sweep directly follows a cooldown
   * sleep, every cooldown sleep is directly followed by a request, so there
   * are as many of one as of the other.
   */
  lemma {:induction false} SweepPacing(outs: seq<StationOutcome>, cooldown: int, n: nat)
    requires n <= |outs|
    ensures Paced(TraceAfter(outs, cooldown, n))
    ensures Cooldowns(TraceAfter(outs, cooldown, n)) == |RequestedCodes(TraceAfter(outs, cooldown, n))|
    decreases n
  {
    if n > 0 {
      SweepPacing(outs, cooldown, n - 1);
      TraceStepPaced(outs, cooldown, n);
      TraceStepCounts(outs, cooldown, n);
    }
  }

  /** One more station keeps the trace paced. */
  lemma TraceStepPaced(outs: seq<StationOutcome>, cooldown: int, n: nat)
    requires 0 < n <= |outs| && Paced(TraceAfter(outs, cooldown, n - 1))
    ensures Paced(TraceAfter(outs, cooldown, n))
  {
    if !Raised(outs, n - 1) {
      var prev := TraceAfter(outs, cooldown, n - 1);
      var block := Block(outs[n - 1], cooldown);
      assert TraceAfter(outs, cooldown, n) == prev + block;
      BlockPaced(outs[n - 1], cooldown);
      PacedConcat(prev, block);
    }
  }

  /**
   * Ordering: the stations are requested strictly in list order; a sweep
   * requests a prefix of the list, all of it unless a request raised.
   */
  lemma {:induction false} SweepRequestOrder(outs: seq<StationOutcome>, cooldown: int, n: nat)
    requires n <= |outs|
    ensures RequestedCodes(TraceAfter(outs, cooldown, n)) <= OutcomeCodes(outs, n)
    ensures !Raised(outs, n) ==> RequestedCodes(TraceAfter(outs, cooldown, n)) == OutcomeCodes(outs, n)
    decreases n
  {
    if n > 0 {
      SweepRequestOrder(outs, cooldown, n - 1);
      TraceStepCounts(outs, cooldown, n);
      var codes := OutcomeCodes(outs, n - 1);
      assert OutcomeCodes(outs, n) == codes + [outs[n - 1].code];
      if Raised(outs, n - 1) {
        assert codes <= codes + [outs[n - 1].code];
      }
    }
  }

  /** The codes of the stations among the first n whose `save_state` was called. */
  function AdvancingCodes(outs: seq<StationOutcome>, n: nat): seq<string>
    requires n <= |outs|
  {
    if n == 0 then []
    else
      var o := outs[n - 1];
      AdvancingCodes(outs, n - 1) + (if o.push.Some? && o.push.value.Advances() then [o.code] else [])
  }

  /**
   * Checkpoint gating in the trace: in a sweep that ran to the end,
   * `save_state` is called, in order, exactly for the stations whose data
   * was fetched and whose push committed.
   */
  lemma {:induction false} SweepSaves(outs: seq<StationOutcome>, cooldown: int, n: nat)
    requires n <= |outs| && !Raised(outs, n)
    ensures SavedCodes(TraceAfter(outs, cooldown, n)) == AdvancingCodes(outs, n)
    decreases n
  {
    if n > 0 {
      SweepSaves(outs, cooldown, n - 1);
      TraceStepCounts(outs, cooldown, n);
    }
  }

  // ---------------------------------------------------------------------
  // Checkpoint gating

  /** The station among the first n whose save last changed the state file, if any. */
  function LastChange(outs: seq<StationOutcome>, n: nat): (r: Option<nat>)
    requires n <= |outs|
    ensures r.Some? ==> r.value < n && outs[r.value].push.Some? && outs[r.value].push.value.Changes()
    ensures r.Some? ==> forall j :: r.value < j < n ==> !(outs[j].push.Some? && outs[j].push.value.Changes())
    ensures r.None? ==> forall j :: 0 <= j < n ==> !(outs[j].push.Some? && outs[j].push.value.Changes())
  {
    if n == 0 then None
    else if outs[n - 1].push.Some? && outs[n - 1].push.value.Changes() then Some(n - 1)
    else LastChange(outs, n - 1)
  }

  /**
   * When the k-th save was written and no later save failed to write, the
   * last save that changed the file is a written one, at k or later.
   */
  lemma LastChangeIsWrite(outs: seq<StationOutcome>, n: nat, k: nat)
    requires k < n <= |outs| && outs[k].push.Some? && outs[k].push.value.Writes()
    requires forall i :: k < i < n && outs[i].push.Some? && outs[i].push.value.Advances() ==>
               outs[i].push.value.save != WriteFailed
    ensures LastChange(outs, n).Some? && LastChange(outs, n).value >= k
    ensures outs[LastChange(outs, n).value].push.value.save == Written
  {
  }

  /**
   * Without an exception, the state file after the sweep is what the last
   * save that changed it left: that station's code when it was written, an
   * unreadable file when the write failed after emptying it.  When no save
   * changed it, the file is as it was.
   */
  lemma {:induction false} CheckpointIsLastChange(init: SweepState, outs: seq<StationOutcome>, n: nat)
    requires n <= |outs| && !init.aborted
    requires !SweepAfter(init, outs, n).aborted
    ensures SweepAfter(init, outs, n).file ==
              match LastChange(outs, n)
              case Some(j) => if outs[j].push.value.save == Written then Saved(outs[j].code) else Unreadable
              case None => init.file
    decreases n
  {
    if n > 0 {
      var prev := SweepAfter(init, outs, n - 1);
      assert !prev.aborted;
      CheckpointIsLastChange(init, outs, n - 1);
    }
  }

  /**
   * Whatever happens, the state file after the sweep is unchanged, or it was
   * changed by the save of a station whose data was fetched and whose push
   * committed: it names that station when the write succeeded, and it is
   * unreadable when the write failed after emptying it.  A station whose
   * request or push failed never becomes the checkpoint by its own save.
   */
  lemma {:induction false} CheckpointOnlyFromAdvances(init: SweepState, outs: seq<StationOutcome>, n: nat)
    requires n <= |outs|
    ensures var f := SweepAfter(init, outs, n).file;
            || f == init.file
            || exists j :: 0 <= j < n && outs[j].push.Some? && outs[j].push.value.Advances()
                             && ((outs[j].push.value.save == Written && f == Saved(outs[j].code))
                                 || (outs[j].push.value.save == WriteFailed && f == Unreadable))
    decreases n
  {
    if n > 0 {
      CheckpointOnlyFromAdvances(init, outs, n - 1);
    }
  }

  // ---------------------------------------------------------------------
  // The table

  /** The rows committed among the first n stations, in order, up to an exception. */
  function CommittedRows(outs: seq<StationOutcome>, n: nat): seq<Row>
    requires n <= |outs|
  {
    if n == 0 then []
    else
      var o := outs[n - 1];
      CommittedRows(outs, n - 1)
      + (if !Raised(outs, n) && o.push.value.committed then [o.push.value.row] else [])
  }

  /** The rows upserted one after the other. */
  function UpsertAll(table: Table, rows: seq<Row>): Table
  {
    if rows == [] then table else Upsert(UpsertAll(table, rows[..|rows| - 1]), rows[|rows| - 1])
  }

  lemma UpsertAllSnoc(table: Table, rows: seq<Row>, r: Row)
    ensures UpsertAll(table, rows + [r]) == Upsert(UpsertAll(table, rows), r)
  {
    assert (rows + [r])[..|rows|] == rows;
  }

  /** The keys the rows carry. */
  function RowKeys(rows: seq<Row>): set<string>
  {
    if rows == [] then {} else RowKeys(rows[..|rows| - 1]) + {rows[|rows| - 1].plantCode}
  }

  lemma {:induction false} RowKeysMembers(rows: seq<Row>, key: string)
    requires forall r :: r in rows ==> r.plantCode != key
    ensures key !in RowKeys(rows)
    decreases |rows|
  {
    if rows != [] {
      assert rows[|rows| - 1] in rows;
      assert forall r :: r in rows[..|rows| - 1] ==> r in rows;
      RowKeysMembers(rows[..|rows| - 1], key);
    }
  }

  /** For each key, the last row written under it. */
  function LastRows(rows: seq<Row>): (m: Table)
    ensures m.Keys == RowKeys(rows)
  {
    if rows == [] then map[]
    else LastRows(rows[..|rows| - 1])[rows[|rows| - 1].plantCode := rows[|rows| - 1]]
  }

  /** Upserting rows one by one is overlaying the last row of each key on the table. */
  lemma {:induction false} UpsertAllIsOverlay(table: Table, rows: seq<Row>)
    ensures UpsertAll(table, rows) == table + LastRows(rows)
    decreases |rows|
  {
    if rows != [] {
      var front, last := rows[..|rows| - 1], rows[|rows| - 1];
      UpsertAllIsOverlay(table, front);
      var m := LastRows(front);
      assert UpsertAll(table, rows) == (table + m)[last.plantCode := last];
      assert (table + m)[last.plantCode := last] == table + m[last.plantCode := last];
    }
  }

  /** The table after the sweep: the committed rows upserted in order over the old table. */
  lemma {:induction false} SweepTable(init: SweepState, outs: seq<StationOutcome>, n: nat)
    requires n <= |outs| && !init.aborted
    ensures SweepAfter(init, outs, n).table == UpsertAll(init.table, CommittedRows(outs, n))
    decreases n
  {
    if n > 0 {
      SweepTable(init, outs, n - 1);
      SweepAbortsOnlyOnException(init, outs, n - 1);
      var rows := CommittedRows(outs, n - 1);
      var prev := SweepAfter(init, outs, n - 1);
      var o := outs[n - 1];
      if Raised(outs, n) {
        assert SweepAfter(init, outs, n).table == prev.table;
        assert CommittedRows(outs, n) == rows + [] == rows;
      } else if o.push.value.committed {
        assert SweepAfter(init, outs, n).table == Upsert(prev.table, o.push.value.row);
        assert CommittedRows(outs, n) == rows + [o.push.value.row];
        UpsertAllSnoc(init.table, rows, o.push.value.row);
      } else {
        assert SweepAfter(init, outs, n).table == prev.table;
        assert CommittedRows(outs, n) == rows + [] == rows;
      }
    }
  }

  /**
   * Nothing else changes: a key that no committed row carries keeps its old
   * row, and no row is ever deleted.
   */
  lemma SweepKeepsOtherRows(init: SweepState, outs: seq<StationOutcome>, n: nat, key: string)
    requires n <= |outs| && !init.aborted
    requires key in init.table
    requires forall r :: r in CommittedRows(outs, n) ==> r.plantCode != key
    ensures init.table.Keys <= SweepAfter(init, outs, n).table.Keys
    ensures SweepAfter(init, outs, n).table[key] == init.table[key]
  {
    SweepTable(init, outs, n);
    UpsertAllIsOverlay(init.table, CommittedRows(outs, n));
    RowKeysMembers(CommittedRows(outs, n), key);
  }

  /**
   * Delivery is at-least-once with idempotent overwrite: running the same
   * sweep again over the table it produced leaves that table as it is. The
   * rerun has the same outcomes, so it has the same `NOW()` values too. A
   * real rerun refreshes `last_updated`; `RepeatedPush` covers that case.
   */
  lemma RerunIsHarmless(init: SweepState, outs: seq<StationOutcome>, n: nat)
    requires n <= |outs| && !init.aborted
    ensures var once := SweepAfter(init, outs, n).table;
            SweepAfter(init.(table := once), outs, n).table == once
  {
    var rows := CommittedRows(outs, n);
    var once := SweepAfter(init, outs, n).table;
    SweepTable(init, outs, n);
    SweepTable(init.(table := once), outs, n);
    UpsertAllIsOverlay(init.table, rows);
    UpsertAllIsOverlay(once, rows);
    assert once + LastRows(rows) == once;
  }
}
