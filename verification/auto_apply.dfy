/** The auto-apply coordinator of the window (gui_interface.py,
    `check_auto_apply` and its worker): three fields, the last applied
    server and stream key and the in-progress flag, plus the apply workers
    that have been started and not yet finished. A worker runs
    `set_stream_settings` in the background; here it is a pair of steps,
    its start in a tick and its finish with the outcome. */
module AutoApply {
  import opened Common
  import opened ObsControl

  /** The coordinator's state. */
  datatype ApplyState = ApplyState(lastServer: Option<string>, lastKey: Option<string>,
                                   inProgress: bool, workers: seq<Settings>)

  /** `pair` differs from the last applied pair (`None` before any). */
  predicate Fresh(st: ApplyState, pair: Settings)
  {
    Some(pair.server) != st.lastServer || Some(pair.key) != st.lastKey
  }

  /** Whether a tick starts a worker: auto-apply on, OBS connected, no
      apply in progress, both candidates found, and the pair new. */
  predicate StartsWorker(st: ApplyState, enabled: bool, connected: bool,
                   server: Option<string>, key: Option<string>)
  {
    enabled && connected && !st.inProgress && server.Some? && key.Some?
    && (server != st.lastServer || key != st.lastKey)
  }

  /** One tick of `check_auto_apply` with the given candidates. */
  function Tick(st: ApplyState, enabled: bool, connected: bool,
                server: Option<string>, key: Option<string>): (st': ApplyState)
    ensures st'.lastServer == st.lastServer && st'.lastKey == st.lastKey
    ensures StartsWorker(st, enabled, connected, server, key) ==>
      st'.inProgress && st'.workers == st.workers + [Settings(server.value, key.value)]
      && Fresh(st, Settings(server.value, key.value))
    ensures !StartsWorker(st, enabled, connected, server, key) ==> st' == st
  {
    if StartsWorker(st, enabled, connected, server, key) then
      st.(inProgress := true, workers := st.workers + [Settings(server.value, key.value)])
    else st
  }

  /** Worker `i` finishes: a truthy answer records its pair as applied;
      the flag is cleared whatever happened. */
  function Finish(st: ApplyState, i: nat, applied: bool): (st': ApplyState)
    requires i < |st.workers|
    ensures !st'.inProgress && |st'.workers| == |st.workers| - 1
    ensures applied ==> st'.lastServer == Some(st.workers[i].server) && st'.lastKey == Some(st.workers[i].key)
    ensures !applied ==> st'.lastServer == st.lastServer && st'.lastKey == st.lastKey
    ensures forall j :: 0 <= j < i ==> st'.workers[j] == st.workers[j]
    ensures forall j :: i <= j < |st'.workers| ==> st'.workers[j] == st.workers[j + 1]
  {
    var w := st.workers[i];
    ApplyState(if applied then Some(w.server) else st.lastServer,
               if applied then Some(w.key) else st.lastKey,
               false, st.workers[..i] + st.workers[i + 1..])
  }

  /** `clear_results` forgets the applied pair and the flag; workers
      already running keep running. */
  function ClearState(st: ApplyState): (st': ApplyState)
    ensures st'.lastServer.None? && st'.lastKey.None? && !st'.inProgress
    ensures st'.workers == st.workers
  {
    st.(lastServer := None, lastKey := None, inProgress := false)
  }

  // ---------------------------------------------------------------------
  // Runs

  /** What can happen to the coordinator: a display tick with its
      candidates, a worker finishing, or the clear button. */
  datatype Event =
    | TickEvent(enabled: bool, connected: bool, server: Option<string>, key: Option<string>)
    | FinishEvent(worker: nat, applied: bool)
    | ClearEvent

  /** The state after one event; a finish naming no running worker does
      nothing. */
  function After(st: ApplyState, e: Event): ApplyState
  {
    match e
    case TickEvent(en, co, s, k) => Tick(st, en, co, s, k)
    case FinishEvent(i, ok) => if i < |st.workers| then Finish(st, i, ok) else st
    case ClearEvent => ClearState(st)
  }

  /** The pair an event records as applied, if any. */
  function AppliedBy(st: ApplyState, e: Event): Option<Settings>
  {
    match e
    case FinishEvent(i, ok) => if i < |st.workers| && ok then Some(st.workers[i]) else None
    case _ => None
  }

  /** The pairs recorded as applied along a run, in order. */
  function Applied(st: ApplyState, evs: seq<Event>): seq<Settings>
    decreases |evs|
  {
    if evs == [] then []
    else
      var a := AppliedBy(st, evs[0]);
      (if a.Some? then [a.value] else []) + Applied(After(st, evs[0]), evs[1..])
  }

  /** Without the clear button, at most one worker runs, exactly while
      the flag is set, and the running worker's pair differs from the last
      applied one. */
  predicate Coordinated(st: ApplyState)
  {
    |st.workers| == (if st.inProgress then 1 else 0)
    && (st.workers != [] ==> Fresh(st, st.workers[0]))
  }

  predicate NoClear(evs: seq<Event>)
  {
    forall i :: 0 <= i < |evs| ==> !evs[i].ClearEvent?
  }

  /** Ticks and finishes keep the coordination; a finish that records a
      pair records the running worker's, which differed from the last. */
  lemma StepKeepsCoordinated(st: ApplyState, e: Event)
    requires Coordinated(st) && !e.ClearEvent?
    ensures Coordinated(After(st, e))
    ensures AppliedBy(st, e).Some? ==>
      AppliedBy(st, e).value == st.workers[0] && Fresh(st, AppliedBy(st, e).value)
      && After(st, e).lastServer == Some(AppliedBy(st, e).value.server)
      && After(st, e).lastKey == Some(AppliedBy(st, e).value.key)
    ensures AppliedBy(st, e).None? ==>
      After(st, e).lastServer == st.lastServer && After(st, e).lastKey == st.lastKey
  {
  }

  /** The at-most-once guarantee: along any run without the clear
      button, starting from a coordinated state, the first pair recorded
      differs from the one applied before, and no pair is recorded twice in
      a row. */
  lemma {:induction false} NoPairAppliedTwiceInARow(st: ApplyState, evs: seq<Event>)
    requires Coordinated(st) && NoClear(evs)
    decreases |evs|
    ensures var a := Applied(st, evs);
      (a != [] ==> Fresh(st, a[0])) && forall j :: 0 < j < |a| ==> a[j] != a[j - 1]
  {
    if evs != [] {
      var e := evs[0];
      var st' := After(st, e);
      StepKeepsCoordinated(st, e);
      assert NoClear(evs[1..]) by {
        forall i | 0 <= i < |evs| - 1 ensures !evs[1..][i].ClearEvent? {
          assert evs[1..][i] == evs[i + 1];
        }
      }
      NoPairAppliedTwiceInARow(st', evs[1..]);
      var rest := Applied(st', evs[1..]);
      var a := Applied(st, evs);
      if AppliedBy(st, e).Some? {
        var w := AppliedBy(st, e).value;
        assert a == [w] + rest;
        forall j | 0 < j < |a| ensures a[j] != a[j - 1] {
          if j == 1 {
            assert Fresh(st', rest[0]);
          } else {
            assert a[j] == rest[j - 1] && a[j - 1] == rest[j - 2];
          }
        }
      } else {
        assert a == rest;
      }
    }
  }

  /** The start state: nothing applied, nothing running. */
  const Initial := ApplyState(None, None, false, [])

  lemma InitialCoordinated()
    ensures Coordinated(Initial)
  {
  }

  /** After the clear button, any pair found starts a worker again, even
      the one applied last. */
  lemma ClearRearms(st: ApplyState, pair: Settings)
    ensures StartsWorker(ClearState(st), true, true, Some(pair.server), Some(pair.key))
    ensures Tick(ClearState(st), true, true, Some(pair.server), Some(pair.key)).workers
      == st.workers + [pair]
  {
  }

  /** Clearing while a worker runs lets a second one start beside it: the
      in-progress flag is the only guard, and the clear resets it. */
  lemma ClearWhileApplyingStartsSecondWorker(pair: Settings)
    ensures var st1 := Tick(Initial, true, true, Some(pair.server), Some(pair.key));
      var st2 := Tick(ClearState(st1), true, true, Some(pair.server), Some(pair.key));
      |st2.workers| == 2 && !Coordinated(st2)
  {
  }
}
