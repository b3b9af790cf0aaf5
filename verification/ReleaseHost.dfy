/** The host state one release transaction changes - two selectors, four systemd unit
    files and the snapshot timer - and the effects that change it
    (scripts/leitstand-release.py).  Every effect appends the state it leaves behind to
    a ghost trace, so that statements about crash points can quantify over the trace. */
module ReleaseHost {
  import opened Common

  /** A resolved release directory. */
  type Release = string

  datatype LinkState = NoLink | LinksTo(target: Release)

  datatype UnitState = Missing | Installed(content: Bytes, mode: nat)

  /** One value for each of the four coupled units. */
  datatype PerUnit<+T> = PerUnit(web: T, storage: T, snapshot: T, timer: T) {
    function At(s: Service): T {
      match s
      case Web => web
      case Storage => storage
      case Snapshot => snapshot
      case Timer => timer
    }
  }

  datatype Service = Web | Storage | Snapshot | Timer

  type Units = PerUnit<UnitState>

  const SERVICES: seq<Service> := [Web, Storage, Snapshot, Timer]

  const OWNER_ONLY: nat := 0x180 // 0600
  const WORLD_READABLE: nat := 0x1A4 // 0644

  function Put(units: Units, s: Service, u: UnitState): (r: Units)
    ensures r.At(s) == u && forall t :: t != s ==> r.At(t) == units.At(t)
  {
    match s
    case Web => units.(web := u)
    case Storage => units.(storage := u)
    case Snapshot => units.(snapshot := u)
    case Timer => units.(timer := u)
  }

  predicate Readable(u: UnitState) {
    u.Installed? ==> u.mode == OWNER_ONLY || u.mode == WORLD_READABLE
  }

  datatype TimerState = TimerState(enabled: bool, active: bool)

  datatype HostState = HostState(current: LinkState, previous: LinkState, units: Units, timer: TimerState)

  /** What one transaction is about: the state at entry, the release it switches to, the
      outgoing release it records as `previous` (if any), and the unit files it renders. */
  datatype Scope = Scope(entry: HostState, target: Release, outgoing: Option<Release>, rendered: PerUnit<Bytes>)

  /** The states a transaction may pass through: each selector and each unit file holds
      either its value at entry or the one value the transaction writes. */
  ghost predicate Within(scope: Scope, s: HostState) {
    && (s.current == scope.entry.current || s.current == LinksTo(scope.target))
    && (s.previous == scope.entry.previous || (scope.outgoing.Some? && s.previous == LinksTo(scope.outgoing.value)))
    && forall u :: MayHold(scope, u, s.units.At(u))
  }

  /** The unit's state at entry, or the rendered file. */
  predicate MayHold(scope: Scope, s: Service, u: UnitState) {
    u == scope.entry.units.At(s) || u == Installed(scope.rendered.At(s), OWNER_ONLY)
  }

  ghost predicate Stays(scope: Scope, trace: seq<HostState>, from: nat) {
    forall k :: from <= k < |trace| ==> Within(scope, trace[k])
  }

  function InstalledUnits(rendered: PerUnit<Bytes>): Units {
    PerUnit(Installed(rendered.web, OWNER_ONLY), Installed(rendered.storage, OWNER_ONLY),
            Installed(rendered.snapshot, OWNER_ONLY), Installed(rendered.timer, OWNER_ONLY))
  }

  /** How the effects inside `install_units` end, and what systemd answers. */
  datatype InstallFaults = InstallFaults(
    renders: bool, readable: bool, writes: PerUnit<Effect>, reloadRaises: bool, loaded: PerUnit<bool>,
    restore: PerUnit<Outcome>)

  predicate InstallSucceeds(f: InstallFaults) {
    && f.renders && f.readable
    && (forall s :: f.writes.At(s).Done?) && !f.reloadRaises && (forall s :: f.loaded.At(s))
  }

  /** The answers `_restore_transaction` reads back about the world outside this state. */
  datatype Readback = Readback(readable: bool, storageOk: bool, webOk: bool, priorTargetOk: bool)

  datatype RestoreFaults = RestoreFaults(
    current: Outcome, previous: Outcome, units: PerUnit<Outcome>, reloadRaises: bool,
    enablement: Outcome, activity: Outcome, storageStartRaises: bool, webRestartRaises: bool,
    readback: Readback)

  /** What the transaction observed before its first effect. */
  datatype Before = Before(state: HostState, webActive: bool, storageLoaded: bool, priorTarget: Option<Release>)

  datatype RestoreAction =
    | RestoreCurrent | RestorePrevious | RestoreUnitFiles | DaemonReload
    | RestoreTimer | StartStorage | RestartWeb

  const ACTIONS: seq<RestoreAction> :=
    [RestoreCurrent, RestorePrevious, RestoreUnitFiles, DaemonReload, RestoreTimer, StartStorage, RestartWeb]

  datatype RestoreError =
    | ActionRaised(action: RestoreAction)
    | CurrentMismatch | PreviousMismatch | UnitsMismatch | EnablementMismatch | ActivityMismatch
    | StorageReadbackFailed | WebReadbackFailed | PriorTargetMismatch | ReadbackRaised

  predicate UnitsRaise(f: PerUnit<Outcome>) {
    exists s :: f.At(s).Raises()
  }

  /** The action ends in an exception, which becomes an entry of `errors`. */
  predicate ActionRaises(a: RestoreAction, before: Before, f: RestoreFaults) {
    match a
    case RestoreCurrent => f.current.Raises()
    case RestorePrevious => f.previous.Raises()
    case RestoreUnitFiles => UnitsRaise(f.units)
    case DaemonReload => f.reloadRaises
    case RestoreTimer => f.enablement.Raises() || f.activity.Raises()
    case StartStorage => before.storageLoaded && f.storageStartRaises
    case RestartWeb => before.webActive && f.webRestartRaises
  }

  /** No restore action fails, noisily or silently. */
  predicate Faultless(before: Before, f: RestoreFaults) {
    && (forall a :: !ActionRaises(a, before, f))
    && f.current.Done? && f.previous.Done? && (forall s :: f.units.At(s).Done?)
    && f.enablement.Done? && f.activity.Done?
  }

  /** The read-back itself works and finds the services as they were. */
  predicate ReadsBackClean(before: Before, f: RestoreFaults) {
    && f.readback.readable
    && (before.storageLoaded ==> f.readback.storageOk)
    && (before.webActive ==> f.readback.webOk && (before.priorTarget.Some? ==> f.readback.priorTargetOk))
  }

  // ---------------------------------------------------------------- what failures leave behind

  /** Moves the unit files to `to`, in order from the `i`-th; the first that raises ends it. */
  function MovedUnits(units: Units, to: Units, how: PerUnit<Outcome>, i: nat): Units
    requires i <= |SERVICES|
    decreases |SERVICES| - i
  {
    if i == |SERVICES| then units
    else
      var s := SERVICES[i];
      var next := Put(units, s, how.At(s).Apply(units.At(s), to.At(s)));
      if how.At(s).Raises() then next else MovedUnits(next, to, how, i + 1)
  }

  /** Its own restore included, whether it raises or not. */
  function InstalledAfter(units: Units, rendered: PerUnit<Bytes>, f: InstallFaults): Units {
    if !f.renders || !f.readable then units
    else
      var written := MovedUnits(units, InstalledUnits(rendered), f.writes, 0);
      if InstallSucceeds(f) then written else MovedUnits(written, units, f.restore, 0)
  }

  function MovedTimer(t: TimerState, before: TimerState, f: RestoreFaults): TimerState {
    var enabled := t.(enabled := f.enablement.Apply(t.enabled, before.enabled));
    if f.enablement.Raises() then enabled else enabled.(active := f.activity.Apply(t.active, before.active))
  }

  /** What a restoration of `before` makes of the state `s`. */
  function RestoredState(s: HostState, before: HostState, f: RestoreFaults): HostState {
    PartlyRestored(|ACTIONS|, s, before, f)
  }

  /** After the first `i` of the actions. */
  function PartlyRestored(i: nat, s: HostState, before: HostState, f: RestoreFaults): HostState {
    HostState(
      if i > 0 then f.current.Apply(s.current, before.current) else s.current,
      if i > 1 then f.previous.Apply(s.previous, before.previous) else s.previous,
      if i > 2 then MovedUnits(s.units, before.units, f.units, 0) else s.units,
      if i > 4 then MovedTimer(s.timer, before.timer, f) else s.timer)
  }

  /** One unit is at its destination afterwards exactly if it was there or is reached and moved. */
  predicate UnitArrives(units: Units, to: Units, how: PerUnit<Outcome>, i: nat, k: nat)
    requires i <= k < |SERVICES|
  {
    var s := SERVICES[k];
    units.At(s) == to.At(s) || (how.At(s).TakesEffect() && forall j :: i <= j < k ==> !how.At(SERVICES[j]).Raises())
  }

  lemma {:induction false} MovedUnitsArrive(units: Units, to: Units, how: PerUnit<Outcome>, i: nat, k: nat)
    requires i <= |SERVICES| && k < |SERVICES|
    ensures k < i ==> MovedUnits(units, to, how, i).At(SERVICES[k]) == units.At(SERVICES[k])
    ensures i <= k ==>
      (MovedUnits(units, to, how, i).At(SERVICES[k]) == to.At(SERVICES[k]) <==> UnitArrives(units, to, how, i, k))
    decreases |SERVICES| - i
  {
    if i < |SERVICES| {
      var s := SERVICES[i];
      var next := Put(units, s, how.At(s).Apply(units.At(s), to.At(s)));
      AllServices();
      if !how.At(s).Raises() { MovedUnitsArrive(next, to, how, i + 1, k); }
    }
  }

  /** All units are at their destinations exactly if each of them arrives. */
  lemma UnitsMovedExactly(units: Units, to: Units, how: PerUnit<Outcome>)
    ensures MovedUnits(units, to, how, 0) == to <==>
      forall k :: 0 <= k < |SERVICES| ==> UnitArrives(units, to, how, 0, k)
  {
    AllServices();
    forall k: nat | k < |SERVICES|
      ensures MovedUnits(units, to, how, 0).At(SERVICES[k]) == to.At(SERVICES[k]) <==> UnitArrives(units, to, how, 0, k)
    {
      MovedUnitsArrive(units, to, how, 0, k);
    }
    var moved := MovedUnits(units, to, how, 0);
    if forall k :: 0 <= k < |SERVICES| ==> moved.At(SERVICES[k]) == to.At(SERVICES[k]) {
      assert moved.At(SERVICES[0]) == to.At(SERVICES[0]) && moved.At(SERVICES[1]) == to.At(SERVICES[1]);
      assert moved.At(SERVICES[2]) == to.At(SERVICES[2]) && moved.At(SERVICES[3]) == to.At(SERVICES[3]);
    }
  }

  /** Every part that is not as it was is reached and put back. */
  predicate Undoes(s: HostState, before: HostState, f: RestoreFaults) {
    && (s.current == before.current || f.current.TakesEffect())
    && (s.previous == before.previous || f.previous.TakesEffect())
    && (forall k :: 0 <= k < |SERVICES| ==> UnitArrives(s.units, before.units, f.units, 0, k))
    && (s.timer.enabled == before.timer.enabled || f.enablement.TakesEffect())
    && (s.timer.active == before.timer.active || (!f.enablement.Raises() && f.activity.TakesEffect()))
  }

  /** The restoration brings the old state back exactly under that condition. */
  lemma RestoredExactly(s: HostState, before: HostState, f: RestoreFaults)
    ensures RestoredState(s, before, f) == before <==> Undoes(s, before, f)
  {
    UnitsMovedExactly(s.units, before.units, f.units);
  }

  lemma FaultlessUndoes(s: HostState, before: Before, f: RestoreFaults)
    requires Faultless(before, f)
    ensures RestoredState(s, before.state, f) == before.state
  {
    RestoredExactly(s, before.state, f);
  }

  // ---------------------------------------------------------------- the pairs of selectors shown

  datatype Selectors = Selectors(current: LinkState, previous: LinkState)

  function SelectorsOf(s: HostState): Selectors { Selectors(s.current, s.previous) }

  /** The pairs of selectors the states show. */
  function SelectorsIn(states: seq<HostState>): (r: set<Selectors>)
    ensures forall k :: 0 <= k < |states| ==> SelectorsOf(states[k]) in r
    ensures forall p :: p in r ==> exists k :: 0 <= k < |states| && SelectorsOf(states[k]) == p
  {
    set k | 0 <= k < |states| :: SelectorsOf(states[k])
  }

  lemma SelectorsGrow(states: seq<HostState>, s: HostState)
    ensures SelectorsIn(states + [s]) == SelectorsIn(states) + {SelectorsOf(s)}
  {
    var more := states + [s];
    assert more[|states|] == s;
    forall k | 0 <= k < |states| ensures SelectorsOf(states[k]) in SelectorsIn(more) {
      assert more[k] == states[k];
    }
  }

  /** The pairs a restoration shows: `current` goes first. */
  function RestoreTrail(s: HostState, before: HostState, f: RestoreFaults): set<Selectors> {
    var current, previous := f.current.Apply(s.current, before.current), f.previous.Apply(s.previous, before.previous);
    {Selectors(current, s.previous), Selectors(current, previous)}
  }

  class Host {
    var current: LinkState
    var previous: LinkState
    var units: Units
    var timer: TimerState
    ghost var trace: seq<HostState>

    /** An empty install: no selector, no unit file, no timer. */
    constructor ()
      ensures Now() == EmptyInstall() && trace == []
    {
      current, previous := NoLink, NoLink;
      units := PerUnit(Missing, Missing, Missing, Missing);
      timer := TimerState(false, false);
      trace := [];
    }

    function Now(): HostState
      reads this
    {
      HostState(current, previous, units, timer)
    }

    /** Since the trace had `from` entries, the host has stayed within the transaction's
        scope, and its present state is the last one recorded. */
    ghost predicate Tracks(scope: Scope, from: nat)
      reads this
    {
      && from <= |trace|
      && Within(scope, Now()) && Stays(scope, trace, from)
      && Now() == if |trace| == from then scope.entry else trace[|trace| - 1]
    }

    /** The states since the trace had `from` entries, the one at entry included. */
    ghost function States(scope: Scope, from: nat): (r: seq<HostState>)
      requires from <= |trace|
      reads this
      ensures |r| > 0 && (Tracks(scope, from) ==> r[|r| - 1] == Now())
    {
      [scope.entry] + trace[from..]
    }

    /** The pairs of selectors shown in these states. */
    ghost function Seen(scope: Scope, from: nat): (r: set<Selectors>)
      requires from <= |trace|
      reads this
      ensures Tracks(scope, from) ==> SelectorsOf(Now()) in r
    {
      SelectorsIn(States(scope, from))
    }

    /** `atomic_symlink` / `restore_link_state` on the `current` selector. */
    method SetCurrent(link: LinkState, how: Outcome, ghost scope: Scope, ghost from: nat) returns (raised: bool)
      requires Tracks(scope, from)
      requires link == scope.entry.current || link == LinksTo(scope.target)
      modifies `current, `trace
      ensures Tracks(scope, from) && trace == old(trace) + [Now()]
      ensures Seen(scope, from) == old(Seen(scope, from)) + {SelectorsOf(Now())}
      ensures current == how.Apply(old(current), link) && raised == how.Raises()
    {
      current := how.Apply(current, link);
      raised := how.Raises();
      trace := trace + [Now()];
      StatesGrow(scope, from, old(trace));
    }

    /** `atomic_symlink` / `restore_link_state` on the `previous` selector. */
    method SetPrevious(link: LinkState, how: Outcome, ghost scope: Scope, ghost from: nat) returns (raised: bool)
      requires Tracks(scope, from)
      requires link == scope.entry.previous || (scope.outgoing.Some? && link == LinksTo(scope.outgoing.value))
      modifies `previous, `trace
      ensures Tracks(scope, from) && trace == old(trace) + [Now()]
      ensures Seen(scope, from) == old(Seen(scope, from)) + {SelectorsOf(Now())}
      ensures previous == how.Apply(old(previous), link) && raised == how.Raises()
    {
      previous := how.Apply(previous, link);
      raised := how.Raises();
      trace := trace + [Now()];
      StatesGrow(scope, from, old(trace));
    }

    /** `atomic_replace_bytes` / `restore_unit` on one unit file. */
    method SetUnit(s: Service, u: UnitState, how: Outcome, ghost scope: Scope, ghost from: nat) returns (raised: bool)
      requires Tracks(scope, from)
      requires MayHold(scope, s, u)
      modifies `units, `trace
      ensures Tracks(scope, from) && trace == old(trace) + [Now()]
      ensures Seen(scope, from) == old(Seen(scope, from)) + {SelectorsOf(Now())}
      ensures units == Put(old(units), s, how.Apply(old(units).At(s), u)) && raised == how.Raises()
    {
      units := Put(units, s, how.Apply(units.At(s), u));
      raised := how.Raises();
      trace := trace + [Now()];
      StatesGrow(scope, from, old(trace));
    }

    method SetTimer(t: TimerState, how: Outcome, ghost scope: Scope, ghost from: nat) returns (raised: bool)
      requires Tracks(scope, from)
      modifies `timer, `trace
      ensures Tracks(scope, from) && trace == old(trace) + [Now()]
      ensures Seen(scope, from) == old(Seen(scope, from)) + {SelectorsOf(Now())}
      ensures timer == how.Apply(old(timer), t) && raised == how.Raises()
    {
      timer := how.Apply(timer, t);
      raised := how.Raises();
      trace := trace + [Now()];
      StatesGrow(scope, from, old(trace));
    }

    lemma StatesGrow(scope: Scope, from: nat, before: seq<HostState>)
      requires from <= |before| && trace == before + [Now()]
      ensures Seen(scope, from) == SelectorsIn([scope.entry] + before[from..]) + {SelectorsOf(Now())}
    {
      assert States(scope, from) == ([scope.entry] + before[from..]) + [Now()];
      SelectorsGrow([scope.entry] + before[from..], Now());
    }

    /** Moves one unit after the other; the first that raises ends it. */
    method MoveUnits(to: Units, f: PerUnit<Outcome>, ghost scope: Scope, ghost from: nat) returns (raised: bool)
      requires Tracks(scope, from)
      requires forall s :: MayHold(scope, s, to.At(s))
      modifies `units, `trace
      ensures Tracks(scope, from) && old(trace) <= trace
      ensures Seen(scope, from) == old(Seen(scope, from))
      ensures raised == UnitsRaise(f)
      ensures units == MovedUnits(old(units), to, f, 0)
    {
      raised := false;
      for i := 0 to |SERVICES|
        invariant Tracks(scope, from) && old(trace) <= trace
        invariant Seen(scope, from) == old(Seen(scope, from))
        invariant !raised && NoneRaisesBefore(i, f)
        invariant MovedUnits(old(units), to, f, 0) == MovedUnits(units, to, f, i)
      {
        var s := SERVICES[i];
        raised := SetUnit(s, to.At(s), f.At(s), scope, from);
        if raised {
          return;
        }
      }
      AllServices();
    }

    /** `_restore_units` */
    method RestoreUnits(states: Units, f: PerUnit<Outcome>, ghost scope: Scope, ghost from: nat) returns (raised: bool)
      requires Tracks(scope, from) && states == scope.entry.units
      modifies `units, `trace
      ensures Tracks(scope, from) && old(trace) <= trace
      ensures Seen(scope, from) == old(Seen(scope, from))
      ensures raised == UnitsRaise(f)
      ensures units == MovedUnits(old(units), states, f, 0)
      ensures (forall s :: f.At(s).Done?) ==> units == states
    {
      raised := MoveUnits(states, f, scope, from);
      UnitsMovedExactly(old(units), states, f);
    }

    /** The writes of `install_units`. */
    method WriteUnits(rendered: PerUnit<Bytes>, f: PerUnit<Effect>, ghost scope: Scope, ghost from: nat)
      returns (raised: bool)
      requires Tracks(scope, from) && rendered == scope.rendered
      modifies `units, `trace
      ensures Tracks(scope, from) && old(trace) <= trace
      ensures Seen(scope, from) == old(Seen(scope, from))
      ensures raised <==> exists s :: f.At(s).Raises()
      ensures units == MovedUnits(old(units), InstalledUnits(rendered), f, 0)
    {
      ghost var outcomes: PerUnit<Outcome> := f;
      forall s ensures outcomes.At(s) == f.At(s) { EffectIsOutcome(f, s); }
      assert UnitsRaise(outcomes) <==> exists s :: f.At(s).Raises();
      RenderedInScope(rendered);
      raised := MoveUnits(InstalledUnits(rendered), f, scope, from);
    }

    /** The last statement of `install_units`: bytes, mode and what systemd has loaded. */
    method CheckUnits(rendered: PerUnit<Bytes>, loaded: PerUnit<bool>) returns (failed: bool)
      ensures failed <==> units != InstalledUnits(rendered) || exists s :: !loaded.At(s)
    {
      AllServices();
      for i := 0 to |SERVICES|
        invariant forall j :: 0 <= j < i ==>
          loaded.At(SERVICES[j]) && units.At(SERVICES[j]) == Installed(rendered.At(SERVICES[j]), OWNER_ONLY)
      {
        var s := SERVICES[i];
        if units.At(s) != Installed(rendered.At(s), OWNER_ONLY) || !loaded.At(s) {
          return true;
        }
      }
      return false;
    }

    /** `install_units`: render, write all four, reload, verify; on any exception put the
        snapshot back and raise. */
    method InstallUnits(rendered: PerUnit<Bytes>, f: InstallFaults, ghost scope: Scope, ghost from: nat)
      returns (raised: bool)
      requires Tracks(scope, from)
      requires units == scope.entry.units && rendered == scope.rendered
      modifies `units, `trace
      ensures Tracks(scope, from) && old(trace) <= trace
      ensures Seen(scope, from) == old(Seen(scope, from))
      ensures raised <==> !InstallSucceeds(f)
      ensures units == InstalledAfter(old(units), rendered, f)
      ensures !raised ==> units == InstalledUnits(rendered)
      ensures raised && (forall s :: f.restore.At(s).Done?) ==> units == old(units)
    {
      raised := !f.renders || !f.readable;
      if !raised {
        var snapshot := units;
        raised := WriteAndCheck(rendered, f, scope, from);
        if raised {
          ghost var written := units;
          var _ := RestoreUnits(snapshot, f.restore, scope, from);
          UnitsMovedExactly(written, snapshot, f.restore);
        }
      }
    }

    /** The `try` statement of `install_units`. */
    method WriteAndCheck(rendered: PerUnit<Bytes>, f: InstallFaults, ghost scope: Scope, ghost from: nat)
      returns (raised: bool)
      requires Tracks(scope, from) && rendered == scope.rendered && f.renders && f.readable
      modifies `units, `trace
      ensures Tracks(scope, from) && old(trace) <= trace
      ensures Seen(scope, from) == old(Seen(scope, from))
      ensures raised <==> !InstallSucceeds(f)
      ensures units == MovedUnits(old(units), InstalledUnits(rendered), f.writes, 0)
      ensures !raised ==> units == InstalledUnits(rendered)
    {
      raised := WriteUnits(rendered, f.writes, scope, from);
      if !raised { QuietWritesArrive(old(units), InstalledUnits(rendered), f.writes); }
      InstallVerdict(f);
      raised := raised || f.reloadRaises;
      if !raised {
        raised := CheckUnits(rendered, f.loaded);
      }
    }

    /** `_restore_snapshot_timer_state`: two commands whose exit status is ignored. */
    method RestoreTimerState(before: TimerState, f: RestoreFaults, ghost scope: Scope, ghost from: nat)
      returns (raised: bool)
      requires Tracks(scope, from)
      modifies `timer, `trace
      ensures Tracks(scope, from) && old(trace) <= trace
      ensures Seen(scope, from) == old(Seen(scope, from))
      ensures raised == (f.enablement.Raises() || f.activity.Raises())
      ensures timer == MovedTimer(old(timer), before, f)
      ensures f.enablement.Done? && f.activity.Done? ==> timer == before
    {
      raised := SetTimer(timer.(enabled := before.enabled), f.enablement, scope, from);
      if !raised {
        raised := SetTimer(timer.(active := before.active), f.activity, scope, from);
      }
    }

    /** One entry of the action table of `_restore_transaction`. */
    method Perform(action: RestoreAction, before: Before, f: RestoreFaults, ghost scope: Scope, ghost from: nat)
      returns (raised: bool)
      requires Tracks(scope, from) && before.state == scope.entry
      modifies this
      ensures Tracks(scope, from) && old(trace) <= trace
      ensures raised == ActionRaises(action, before, f)
      ensures Now() == Acted(action, old(Now()), before.state, f)
      ensures Seen(scope, from) == old(Seen(scope, from)) + {SelectorsOf(Now())}
    {
      match action {
        case RestoreCurrent => raised := SetCurrent(before.state.current, f.current, scope, from);
        case RestorePrevious => raised := SetPrevious(before.state.previous, f.previous, scope, from);
        case RestoreUnitFiles => raised := RestoreUnits(before.state.units, f.units, scope, from);
        case DaemonReload => raised := f.reloadRaises;
        case RestoreTimer => raised := RestoreTimerState(before.state.timer, f, scope, from);
        case StartStorage => raised := before.storageLoaded && f.storageStartRaises;
        case RestartWeb => raised := before.webActive && f.webRestartRaises;
      }
    }

    /** `_restore_transaction`: every action is tried, whatever happened to the earlier
        ones, and the verdict is what can be read back afterwards.  An empty list of
        errors is the source's `complete`. */
    method RestoreTransaction(before: Before, f: RestoreFaults, ghost scope: Scope, ghost from: nat)
      returns (errors: seq<RestoreError>)
      requires Tracks(scope, from) && before.state == scope.entry
      modifies this
      ensures Tracks(scope, from) && old(trace) <= trace
      ensures errors == [] <==>
        (forall a :: !ActionRaises(a, before, f)) && Now() == before.state && ReadsBackClean(before, f)
      ensures Now() == RestoredState(old(Now()), before.state, f)
      ensures Seen(scope, from) == old(Seen(scope, from)) + RestoreTrail(old(Now()), before.state, f)
      ensures Faultless(before, f) ==> Now() == before.state
      // every failed action and every mismatch is named, and nothing else
      ensures ActionRaised(RestoreCurrent) in errors <==> f.current.Raises()
      ensures ActionRaised(RestorePrevious) in errors <==> f.previous.Raises()
      ensures ActionRaised(RestoreUnitFiles) in errors <==> exists s :: f.units.At(s).Raises()
      ensures ActionRaised(DaemonReload) in errors <==> f.reloadRaises
      ensures ActionRaised(RestoreTimer) in errors <==> f.enablement.Raises() || f.activity.Raises()
      ensures ActionRaised(StartStorage) in errors <==> before.storageLoaded && f.storageStartRaises
      ensures ActionRaised(RestartWeb) in errors <==> before.webActive && f.webRestartRaises
      ensures ReadbackRaised in errors <==> !f.readback.readable
      ensures CurrentMismatch in errors <==> f.readback.readable && current != before.state.current
      ensures PreviousMismatch in errors <==> f.readback.readable && previous != before.state.previous
      ensures UnitsMismatch in errors <==> f.readback.readable && units != before.state.units
      ensures EnablementMismatch in errors <==> f.readback.readable && timer.enabled != before.state.timer.enabled
      ensures ActivityMismatch in errors <==> f.readback.readable && timer.active != before.state.timer.active
      ensures StorageReadbackFailed in errors <==>
        f.readback.readable && before.storageLoaded && !f.readback.storageOk
      ensures WebReadbackFailed in errors <==> f.readback.readable && before.webActive && !f.readback.webOk
      ensures PriorTargetMismatch in errors <==>
        f.readback.readable && before.webActive && before.priorTarget.Some? && !f.readback.priorTargetOk
    {
      errors := RunActions(before, f, scope, from);
      if Faultless(before, f) { FaultlessUndoes(old(Now()), before, f); }
      var mismatches := ReadBack(before, f);
      errors := errors + mismatches;
    }

    /** The loop over the action table. */
    method RunActions(before: Before, f: RestoreFaults, ghost scope: Scope, ghost from: nat)
      returns (errors: seq<RestoreError>)
      requires Tracks(scope, from) && before.state == scope.entry
      modifies this
      ensures Tracks(scope, from) && old(trace) <= trace
      ensures errors == [] <==> forall a :: !ActionRaises(a, before, f)
      ensures Now() == RestoredState(old(Now()), before.state, f)
      ensures Seen(scope, from) == old(Seen(scope, from)) + RestoreTrail(old(Now()), before.state, f)
      ensures ActionRaised(RestoreCurrent) in errors <==> f.current.Raises()
      ensures ActionRaised(RestorePrevious) in errors <==> f.previous.Raises()
      ensures ActionRaised(RestoreUnitFiles) in errors <==> exists s :: f.units.At(s).Raises()
      ensures ActionRaised(DaemonReload) in errors <==> f.reloadRaises
      ensures ActionRaised(RestoreTimer) in errors <==> f.enablement.Raises() || f.activity.Raises()
      ensures ActionRaised(StartStorage) in errors <==> before.storageLoaded && f.storageStartRaises
      ensures ActionRaised(RestartWeb) in errors <==> before.webActive && f.webRestartRaises
      ensures forall e :: e in errors ==> e.ActionRaised?
    {
      errors := [];
      ghost var start, seen := Now(), Seen(scope, from);
      for i := 0 to |ACTIONS|
        invariant Tracks(scope, from) && old(trace) <= trace
        invariant errors == [] <==> NoneRaises(i, before, f)
        invariant Names(errors, i, before, f)
        invariant Now() == PartlyRestored(i, start, before.state, f)
        invariant Seen(scope, from) == PartOfTrail(i, seen, start, before.state, f)
      {
        RestoreStep(i, seen, start, before.state, f);
        ghost var errors0 := errors;
        var raised := Perform(ACTIONS[i], before, f, scope, from);
        if raised {
          errors := errors + [ActionRaised(ACTIONS[i])];
        }
        NamesOneMore(errors0, errors, i, before, f);
      }
      AllActions();
      AllNamed(errors, before, f);
    }

    /** The second half of `_restore_transaction`. */
    method ReadBack(before: Before, f: RestoreFaults) returns (errors: seq<RestoreError>)
      ensures errors == [] <==> Now() == before.state && ReadsBackClean(before, f)
      ensures ReadbackRaised in errors <==> !f.readback.readable
      ensures CurrentMismatch in errors <==> f.readback.readable && current != before.state.current
      ensures PreviousMismatch in errors <==> f.readback.readable && previous != before.state.previous
      ensures UnitsMismatch in errors <==> f.readback.readable && units != before.state.units
      ensures EnablementMismatch in errors <==> f.readback.readable && timer.enabled != before.state.timer.enabled
      ensures ActivityMismatch in errors <==> f.readback.readable && timer.active != before.state.timer.active
      ensures StorageReadbackFailed in errors <==>
        f.readback.readable && before.storageLoaded && !f.readback.storageOk
      ensures WebReadbackFailed in errors <==> f.readback.readable && before.webActive && !f.readback.webOk
      ensures PriorTargetMismatch in errors <==>
        f.readback.readable && before.webActive && before.priorTarget.Some? && !f.readback.priorTargetOk
      ensures forall e :: e in errors ==> !e.ActionRaised?
    {
      errors := [ReadbackRaised];
      if f.readback.readable {
        var ofHost := CompareHost(before.state);
        var ofServices := CompareServices(before, f.readback);
        errors := ofHost + ofServices;
      }
    }

    /** Selectors, units and timer against the state at entry. */
    method CompareHost(state: HostState) returns (errors: seq<RestoreError>)
      ensures errors == [] <==> Now() == state
      ensures CurrentMismatch in errors <==> current != state.current
      ensures PreviousMismatch in errors <==> previous != state.previous
      ensures UnitsMismatch in errors <==> units != state.units
      ensures EnablementMismatch in errors <==> timer.enabled != state.timer.enabled
      ensures ActivityMismatch in errors <==> timer.active != state.timer.active
      ensures forall e :: e in errors ==>
        e.CurrentMismatch? || e.PreviousMismatch? || e.UnitsMismatch? || e.EnablementMismatch? || e.ActivityMismatch?
    {
      errors := Note([], CurrentMismatch, current != state.current);
      errors := Note(errors, PreviousMismatch, previous != state.previous);
      errors := Note(errors, UnitsMismatch, units != state.units);
      errors := Note(errors, EnablementMismatch, timer.enabled != state.timer.enabled);
      errors := Note(errors, ActivityMismatch, timer.active != state.timer.active);
    }

    /** What systemd says about the services. */
    method CompareServices(before: Before, answers: Readback) returns (errors: seq<RestoreError>)
      ensures errors == [] <==>
        && (before.storageLoaded ==> answers.storageOk)
        && (before.webActive ==> answers.webOk && (before.priorTarget.Some? ==> answers.priorTargetOk))
      ensures StorageReadbackFailed in errors <==> before.storageLoaded && !answers.storageOk
      ensures WebReadbackFailed in errors <==> before.webActive && !answers.webOk
      ensures PriorTargetMismatch in errors <==>
        before.webActive && before.priorTarget.Some? && !answers.priorTargetOk
      ensures forall e :: e in errors ==>
        e.StorageReadbackFailed? || e.WebReadbackFailed? || e.PriorTargetMismatch?
    {
      errors := Note([], StorageReadbackFailed, before.storageLoaded && !answers.storageOk);
      if before.webActive {
        errors := Note(errors, WebReadbackFailed, !answers.webOk);
        errors := Note(errors, PriorTargetMismatch, before.priorTarget.Some? && !answers.priorTargetOk);
      }
    }
  }

  /** What one entry of the action table makes of a state. */
  function Acted(action: RestoreAction, s: HostState, before: HostState, f: RestoreFaults): HostState {
    match action
    case RestoreCurrent => s.(current := f.current.Apply(s.current, before.current))
    case RestorePrevious => s.(previous := f.previous.Apply(s.previous, before.previous))
    case RestoreUnitFiles => s.(units := MovedUnits(s.units, before.units, f.units, 0))
    case RestoreTimer => s.(timer := MovedTimer(s.timer, before.timer, f))
    case _ => s
  }

  /** The pairs shown after the first `i` actions, if `seen` were shown before. */
  function PartOfTrail(i: nat, seen: set<Selectors>, s: HostState, before: HostState, f: RestoreFaults)
    : set<Selectors>
  {
    if i == 0 then seen
    else if i == 1 then seen + {SelectorsOf(PartlyRestored(1, s, before, f))}
    else seen + RestoreTrail(s, before, f)
  }

  function Note(errors: seq<RestoreError>, e: RestoreError, found: bool): (r: seq<RestoreError>)
    ensures forall x :: x in r <==> x in errors || (found && x == e)
    ensures r == [] <==> errors == [] && !found
  {
    if found then errors + [e] else errors
  }

  /** The errors name the first `i` actions that raise. */
  ghost predicate Names(errors: seq<RestoreError>, i: nat, before: Before, f: RestoreFaults)
    requires i <= |ACTIONS|
  {
    && (forall e :: e in errors ==> e.ActionRaised?)
    && (forall a :: ActionRaised(a) in errors <==> a in ACTIONS[..i] && ActionRaises(a, before, f))
  }

  lemma NamesOneMore(errors: seq<RestoreError>, more: seq<RestoreError>, i: nat, before: Before, f: RestoreFaults)
    requires i < |ACTIONS| && Names(errors, i, before, f)
    requires more == if ActionRaises(ACTIONS[i], before, f) then errors + [ActionRaised(ACTIONS[i])] else errors
    ensures Names(more, i + 1, before, f)
  {
    assert ACTIONS[..i + 1] == ACTIONS[..i] + [ACTIONS[i]];
  }

  lemma AllNamed(errors: seq<RestoreError>, before: Before, f: RestoreFaults)
    requires Names(errors, |ACTIONS|, before, f)
    ensures forall a :: ActionRaised(a) in errors <==> ActionRaises(a, before, f)
  {
    AllActions();
    assert ACTIONS[..|ACTIONS|] == ACTIONS;
    assert ACTIONS[0] in ACTIONS && ACTIONS[1] in ACTIONS && ACTIONS[2] in ACTIONS && ACTIONS[3] in ACTIONS;
    assert ACTIONS[4] in ACTIONS && ACTIONS[5] in ACTIONS && ACTIONS[6] in ACTIONS;
    forall a ensures a in ACTIONS {
      assert a == ACTIONS[0] || a == ACTIONS[1] || a == ACTIONS[2] || a == ACTIONS[3] || a == ACTIONS[4]
        || a == ACTIONS[5] || a == ACTIONS[6];
    }
  }

  predicate NoneRaises(i: nat, before: Before, f: RestoreFaults)
    requires i <= |ACTIONS|
  {
    forall j :: 0 <= j < i ==> !ActionRaises(ACTIONS[j], before, f)
  }

  lemma RestoreStep(i: nat, seen: set<Selectors>, s: HostState, before: HostState, f: RestoreFaults)
    requires i < |ACTIONS|
    ensures var next := Acted(ACTIONS[i], PartlyRestored(i, s, before, f), before, f);
      && next == PartlyRestored(i + 1, s, before, f)
      && PartOfTrail(i, seen, s, before, f) + {SelectorsOf(next)} == PartOfTrail(i + 1, seen, s, before, f)
  {
    AllActions();
  }

  /** Effects that do not raise take effect. */
  lemma QuietWritesArrive(units: Units, to: Units, how: PerUnit<Effect>)
    requires !(exists s :: how.At(s).Raises())
    ensures MovedUnits(units, to, how, 0) == to
  {
    var outcomes: PerUnit<Outcome> := how;
    forall s ensures outcomes.At(s).Done? { EffectIsOutcome(how, s); }
    UnitsMovedExactly(units, to, outcomes);
  }

  predicate NoneRaisesBefore(i: nat, f: PerUnit<Outcome>)
    requires i <= |SERVICES|
  {
    forall j :: 0 <= j < i ==> !f.At(SERVICES[j]).Raises()
  }

  lemma InstalledUnitByUnit(units: Units, rendered: PerUnit<Bytes>)
    ensures units == InstalledUnits(rendered) <==>
      forall u :: units.At(u) == Installed(rendered.At(u), 0x180)
  {
    if forall u :: units.At(u) == Installed(rendered.At(u), 0x180) {
      assert units.At(Web) == Installed(rendered.At(Web), 0x180);
      assert units.At(Storage) == Installed(rendered.At(Storage), 0x180);
      assert units.At(Snapshot) == Installed(rendered.At(Snapshot), 0x180);
      assert units.At(Timer) == Installed(rendered.At(Timer), 0x180);
    }
  }

  lemma RenderedInScope(rendered: PerUnit<Bytes>)
    ensures forall s :: InstalledUnits(rendered).At(s) == Installed(rendered.At(s), OWNER_ONLY)
  {
    AllServices();
  }

  lemma EffectIsOutcome(how: PerUnit<Effect>, s: Service)
    ensures var outcomes: PerUnit<Outcome> := how; outcomes.At(s) == how.At(s) && !outcomes.At(s).Silent?
  {
    var e: Effect := how.At(s);
  }

  lemma InstallVerdict(f: InstallFaults)
    ensures InstallSucceeds(f) <==>
      && f.renders && f.readable && !f.reloadRaises
      && !(exists s :: f.writes.At(s).Raises()) && !(exists s :: !f.loaded.At(s))
  {
    forall s ensures f.writes.At(s).Done? <==> !f.writes.At(s).Raises() { EffectIsOutcome(f.writes, s); }
  }

  lemma AllServices()
    ensures |SERVICES| == 4
    ensures SERVICES[0] == Web && SERVICES[1] == Storage && SERVICES[2] == Snapshot && SERVICES[3] == Timer
    ensures forall s: Service :: s.Web? || s.Storage? || s.Snapshot? || s.Timer?
  {
  }

  lemma AllActions()
    ensures |ACTIONS| == 7
    ensures ACTIONS[0] == RestoreCurrent && ACTIONS[1] == RestorePrevious && ACTIONS[2] == RestoreUnitFiles
    ensures ACTIONS[3] == DaemonReload && ACTIONS[4] == RestoreTimer && ACTIONS[5] == StartStorage
    ensures ACTIONS[6] == RestartWeb
    ensures forall a: RestoreAction ::
      a.RestoreCurrent? || a.RestorePrevious? || a.RestoreUnitFiles? || a.DaemonReload?
      || a.RestoreTimer? || a.StartStorage? || a.RestartWeb?
  {
  }

  function EmptyInstall(): HostState {
    HostState(NoLink, NoLink, PerUnit(Missing, Missing, Missing, Missing), TimerState(false, false))
  }
}
