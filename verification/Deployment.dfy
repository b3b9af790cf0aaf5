/** The release commands: `switch_transaction`, `rollback_release`, `deploy_release` and the
    completion ledger (scripts/leitstand-release.py).  Foreign answers - git, systemd, HTTP -
    are inputs; every effect's ending is an input too. */
module Deployment {
  import opened Common
  import opened ReceiptLedger
  import opened ReleaseHost

  type Attempts = s: seq<Attempt> | |s| == ATTEMPTS
    witness seq(ATTEMPTS, _ => Attempt("", Failed, Failed, Done, true, Done))

  // ---------------------------------------------------------------- switch

  /** What the transaction learns before its first effect. `verifies` are the managed
      releases for which `verify_release_path` succeeds; `readable` is false when any of the
      reads raises; `running` is the working directory of the web process. */
  datatype Observed = Observed(
    verifies: set<Release>, readable: bool, running: Option<Release>,
    webActive: bool, storageLoaded: bool, backupWritten: bool)

  datatype SwitchFaults = SwitchFaults(
    startReceipt: Attempts, install: InstallFaults, setPrevious: Effect, setCurrent: Effect,
    enable: Effect, restart: Effect, timerStable: bool, snapshotProducer: bool,
    storageProducer: bool, webRestart: bool, postflight: bool, finalReceipt: Attempts,
    restore: RestoreFaults, failureReceipt: Attempts)

  datatype SwitchResult =
    | NotStarted                                   // raised before any effect on the host
    | Switched(receipt: string)
    | PriorStateRestored                           // raised "... failed; prior state restored"
    | RestorationIncomplete(errors: seq<RestoreError>)
    | FailureUnrecorded(errors: seq<RestoreError>) // raised while writing the failure receipt

  function OutgoingRelease(s: HostState, o: Observed): Option<Release> {
    if s.current.LinksTo? then Some(s.current.target) else o.running
  }

  /** The release `previous` will name: the outgoing one, if it is managed and another one. */
  function RecordedOutgoing(s: HostState, target: Release, o: Observed): Option<Release> {
    var out := OutgoingRelease(s, o);
    if out.Some? && out.value in o.verifies && out.value != target then out else None
  }

  function ScopeOf(s: HostState, target: Release, o: Observed, rendered: PerUnit<Bytes>): Scope {
    Scope(s, target, RecordedOutgoing(s, target, o), rendered)
  }

  function SwitchedState(scope: Scope): HostState {
    HostState(
      LinksTo(scope.target),
      if scope.outgoing.Some? then LinksTo(scope.outgoing.value) else scope.entry.previous,
      InstalledUnits(scope.rendered),
      TimerState(true, true))
  }

  predicate CanStart(s: HostState, target: Release, o: Observed) {
    target in o.verifies && o.readable && (forall u :: Readable(s.units.At(u))) && o.backupWritten
  }

  /** All forward effects between the two receipts work. */
  predicate ForwardSucceeds(outgoing: Option<Release>, f: SwitchFaults) {
    && InstallSucceeds(f.install)
    && (outgoing.Some? ==> f.setPrevious.Done?)
    && f.setCurrent.Done? && f.enable.Done? && f.restart.Done? && f.timerStable
    && f.snapshotProducer && f.storageProducer && f.webRestart && f.postflight
  }

  function BeforeOf(s: HostState, o: Observed): Before {
    Before(s, o.webActive, o.storageLoaded, OutgoingRelease(s, o))
  }

  /** One switch transaction seen from outside: every state it passed through, in order. */
  datatype Transaction = Transaction(
    target: Release, observed: Observed, rendered: PerUnit<Bytes>, faults: SwitchFaults,
    states: seq<HostState>, result: SwitchResult)

  ghost predicate PossibleTransaction(t: Transaction) {
    && |t.states| > 0
    && var entry, final := t.states[0], Last(t.states);
    && var scope := ScopeOf(entry, t.target, t.observed, t.rendered);
    && Stays(scope, t.states, 0)
    && (t.result.NotStarted? ==> t.states == [entry])
    && (!t.result.NotStarted? ==>
         && CanStart(entry, t.target, t.observed)
         && Ends(t.result, BeforeOf(entry, t.observed), t.faults, scope, SelectorsIn(t.states), final))
  }

  // ---------------------------------------------------------------- where failures lead

  function AfterInstall(scope: Scope, f: SwitchFaults): HostState {
    scope.entry.(units := InstalledAfter(scope.entry.units, scope.rendered, f.install))
  }

  function AfterPrevious(scope: Scope, f: SwitchFaults): HostState {
    var s := AfterInstall(scope, f);
    if scope.outgoing.Some? then s.(previous := f.setPrevious.Apply(s.previous, LinksTo(scope.outgoing.value))) else s
  }

  predicate PreviousRaises(scope: Scope, f: SwitchFaults) {
    scope.outgoing.Some? && f.setPrevious.Raises()
  }

  function AfterSelectors(scope: Scope, f: SwitchFaults): HostState {
    var s := AfterPrevious(scope, f);
    if PreviousRaises(scope, f) then s else s.(current := f.setCurrent.Apply(s.current, LinksTo(scope.target)))
  }

  function AfterTimer(s: HostState, f: SwitchFaults): HostState {
    var enabled := s.(timer := f.enable.Apply(s.timer, s.timer.(enabled := true)));
    if f.enable.Raises() then enabled
    else enabled.(timer := f.restart.Apply(enabled.timer, enabled.timer.(active := true)))
  }

  predicate PointsSelectors(scope: Scope, f: SwitchFaults) {
    !PreviousRaises(scope, f) && !f.setCurrent.Raises()
  }

  /** The state in which the forward half ends, whether it raises or not. */
  function ForwardState(scope: Scope, f: SwitchFaults): HostState {
    if !InstallSucceeds(f.install) then AfterInstall(scope, f)
    else if !PointsSelectors(scope, f) then AfterSelectors(scope, f)
    else AfterTimer(AfterSelectors(scope, f), f)
  }

  /** The pairs of selectors the forward half shows: `previous` goes first. */
  function ForwardTrail(scope: Scope, f: SwitchFaults): set<Selectors> {
    {SelectorsOf(scope.entry)}
    + (if InstallSucceeds(f.install) then PointTrail(scope, f) else {})
  }

  function PointTrail(scope: Scope, f: SwitchFaults): set<Selectors> {
    {SelectorsOf(AfterPrevious(scope, f)), SelectorsOf(AfterSelectors(scope, f))}
  }

  function FinalState(scope: Scope, f: SwitchFaults, switched: bool): HostState {
    if switched then ForwardState(scope, f) else RestoredState(ForwardState(scope, f), scope.entry, f.restore)
  }

  /** The pairs of selectors the whole transaction shows. */
  function Trail(scope: Scope, f: SwitchFaults, switched: bool): set<Selectors> {
    ForwardTrail(scope, f)
    + if switched then {} else RestoreTrail(ForwardState(scope, f), scope.entry, f.restore)
  }

  /** "Prior state restored", recorded or not. */
  predicate ReportsRestored(r: SwitchResult) {
    r.PriorStateRestored? || (r.FailureUnrecorded? && r.errors == [])
  }

  // ---------------------------------------------------------------- completions

  datatype CompletionFaults = CompletionFaults(temporary: Create, sidecar: Create, rename: Effect, synced: bool)

  /** The completions directory, by deployment key. */
  datatype Completions = Completions(records: map<Key, File>, sidecars: map<Key, File>)

  datatype Lookup = Absent | Corrupt | Present(completion: Completion)

  /** `_read_completion`: `Absent` is None, `Corrupt` an exception. */
  function ReadCompletion(key: Key, c: Completions, receipts: map<string, File>): Lookup {
    if key !in c.records && key !in c.sidecars then Absent
    else if key !in c.records || key !in c.sidecars then Corrupt
    else
      var file := c.records[key];
      if c.sidecars[key] != CompletionSidecarFile(Sha256(file), key) || !file.CompletionFile? then Corrupt
      else
        var value := file.completion;
        if value.key != key || KeyOf(value.head, value.configSha) != key then Corrupt
        else if !ReceiptMatches(value, receipts) then Corrupt
        else Present(value)
  }

  predicate ReceiptMatches(value: Completion, receipts: map<string, File>) {
    && value.receiptPath in receipts
    && var file := receipts[value.receiptPath];
    && value.receiptSha == Sha256(file) && file.ReceiptFile?
    && file.receipt.kind == "deploy" && file.receipt.success && file.receipt.head == value.head
  }

  /** Nothing that was in the directory is lost or changed. */
  ghost predicate Grows(earlier: Completions, later: Completions) {
    && (forall k :: k in earlier.records ==> k in later.records && later.records[k] == earlier.records[k])
    && (forall k :: k in earlier.sidecars ==> k in later.sidecars && later.sidecars[k] == earlier.sidecars[k])
  }

  /** `key` is the only key whose entry may differ. */
  ghost predicate OnlyTouches(earlier: Completions, later: Completions, key: Key) {
    && earlier.records - {key} == later.records - {key}
    && earlier.sidecars - {key} == later.sidecars - {key}
  }

  /** Completions name receipts, as `deploy_release` writes them. */
  ghost predicate Proper(c: Completions) {
    forall k :: k in c.records && c.records[k].CompletionFile? ==> IsReceiptName(c.records[k].completion.receiptPath)
  }

  ghost predicate StaysProper(start: Completions, trace: seq<Completions>, from: nat) {
    Proper(start) ==> forall k :: from <= k < |trace| ==> Proper(trace[k])
  }

  /** A sidecar without its completion. */
  predicate Wedged(c: Completions, key: Key) {
    key in c.sidecars && key !in c.records
  }

  /** The write dies after its sidecar is visible and before the rename takes effect. */
  predicate WriteWedges(f: CompletionFaults) {
    f.temporary.Created? && (f.sidecar.Interrupted? || (f.sidecar.Created? && f.rename.RaisedBefore?))
  }

  predicate CompletionSucceeds(f: CompletionFaults) {
    f.temporary.Created? && f.sidecar.Created? && f.rename.Done? && f.synced
  }

  // ---------------------------------------------------------------- deploy

  datatype DeployInputs = DeployInputs(
    head: string, configSha: string, target: Release, rendered: PerUnit<Bytes>,
    prepared: bool,            // build, identity re-check and Systemkatalog confirmation all pass
    selectorReadable: bool, loaded: bool, replayPostflight: bool,
    observed: Observed, switchFaults: SwitchFaults,
    receipt: Attempts, payload: string, completedAt: string, completion: CompletionFaults)

  datatype DeployResult =
    | Refused                                  // raised; no completion says the key is done
    | Replayed(completion: Completion)         // idempotent replay
    | ReplayRefused                            // raised: completed, but no longer what is running
    | SwitchFailed(switch: SwitchResult)
    | EvidenceLost                             // switched, then receipt or completion raised
    | Deployed(completion: Completion)

  class Deployer {
    const host: Host
    const ledger: Ledger
    var completions: Completions
    /** Every state the completions directory has been in. */
    ghost var trace: seq<Completions>

    constructor ()
      ensures fresh(host) && fresh(ledger)
      ensures host.Now() == EmptyInstall() && ledger.Tracks(ledger.Now(), 0)
      ensures completions == Completions(map[], map[])
    {
      host := new Host();
      ledger := new Ledger();
      completions := Completions(map[], map[]);
      trace := [];
    }

    /** The states the host has passed through since `from` entries of its trace. */
    ghost function StatesSince(entry: HostState, from: nat): seq<HostState>
      requires from <= |host.trace|
      reads this, host
    {
      [entry] + host.trace[from..]
    }

    /** The forward half of `switch_transaction`, inside its `try`. */
    method GoForward(target: Release, oldTarget: Option<Release>, oldManaged: bool, rendered: PerUnit<Bytes>,
                     f: SwitchFaults, ghost scope: Scope, ghost from: nat)
      returns (raised: bool)
      requires scope.entry == host.Now() && scope.target == target && scope.rendered == rendered
      requires scope.outgoing == if oldTarget.Some? && oldManaged && oldTarget.value != target then oldTarget else None
      requires from == |host.trace|
      modifies host
      ensures host.Tracks(scope, from) && old(host.trace) <= host.trace
      ensures raised <==> !ForwardSucceeds(scope.outgoing, f)
      ensures host.Now() == ForwardState(scope, f) && host.Seen(scope, from) == ForwardTrail(scope, f)
      ensures !raised ==> host.Now() == SwitchedState(scope)
    {
      SeenAtEntry(scope, from);
      if ForwardSucceeds(scope.outgoing, f) { ForwardReachesTarget(scope, f); }
      raised := host.InstallUnits(rendered, f.install, scope, from);
      if !raised {
        raised := PointSelectors(target, oldTarget, oldManaged, f, scope, from);
        if !raised {
          raised := ActivateTimer(f, scope, from);
          raised := raised || !f.timerStable || !f.snapshotProducer || !f.storageProducer || !f.webRestart;
          // postflight re-reads the selector besides everything it asks of the world
          raised := raised || host.current != LinksTo(target) || !f.postflight;
        }
      }
    }

    lemma SeenAtEntry(scope: Scope, from: nat)
      requires from == |host.trace|
      ensures host.Seen(scope, from) == {SelectorsOf(scope.entry)}
    {
      assert host.States(scope, from) == [] + [scope.entry];
      SelectorsGrow([], scope.entry);
    }

    /** The two commands of `_activate_snapshot_timer`. */
    method ActivateTimer(f: SwitchFaults, ghost scope: Scope, ghost from: nat) returns (raised: bool)
      requires host.Tracks(scope, from)
      modifies host`timer, host`trace
      ensures host.Tracks(scope, from) && old(host.trace) <= host.trace
      ensures raised <==> f.enable.Raises() || f.restart.Raises()
      ensures host.Now() == AfterTimer(old(host.Now()), f) && host.Seen(scope, from) == old(host.Seen(scope, from))
    {
      raised := host.SetTimer(host.timer.(enabled := true), f.enable, scope, from);
      if !raised {
        raised := host.SetTimer(host.timer.(active := true), f.restart, scope, from);
      }
    }

    /** The selector moves of the `try` statement: `previous` first, then `current`. */
    method PointSelectors(target: Release, oldTarget: Option<Release>, oldManaged: bool,
                          f: SwitchFaults, ghost scope: Scope, ghost from: nat)
      returns (raised: bool)
      requires host.Tracks(scope, from) && scope.target == target && host.Now() == AfterInstall(scope, f)
      requires scope.outgoing == if oldTarget.Some? && oldManaged && oldTarget.value != target then oldTarget else None
      modifies host`current, host`previous, host`trace
      ensures host.Tracks(scope, from) && old(host.trace) <= host.trace
      ensures raised <==> !PointsSelectors(scope, f)
      ensures host.Now() == AfterSelectors(scope, f)
      ensures host.Seen(scope, from) == old(host.Seen(scope, from)) + PointTrail(scope, f)
    {
      raised := false;
      if oldManaged && oldTarget.Some? && oldTarget.value != target {
        raised := host.SetPrevious(LinksTo(oldTarget.value), f.setPrevious, scope, from);
      }
      if !raised {
        raised := host.SetCurrent(LinksTo(target), f.setCurrent, scope, from);
      }
    }

    /** The `except` branch of `switch_transaction`. */
    method Abandon(operation: string, attempt: string, target: Release, before: Before, f: SwitchFaults,
                   ghost scope: Scope, ghost from: nat, ghost start: LedgerState, ghost ledgerFrom: nat)
      returns (r: SwitchResult)
      requires host.Tracks(scope, from) && before.state == scope.entry
      requires ledger.Tracks(start, ledgerFrom)
      modifies host, ledger
      ensures host.Tracks(scope, from) && old(host.trace) <= host.trace
      ensures ledger.Tracks(start, ledgerFrom) && old(ledger.trace) <= ledger.trace
      ensures !r.NotStarted? && !r.Switched?
      ensures host.Now() == RestoredState(old(host.Now()), before.state, f.restore)
      ensures host.Seen(scope, from)
        == old(host.Seen(scope, from)) + RestoreTrail(old(host.Now()), before.state, f.restore)
      ensures ReportsRestored(r) <==>
        && (forall a :: !ActionRaises(a, before, f.restore))
        && host.Now() == before.state && ReadsBackClean(before, f.restore)
      ensures r.RestorationIncomplete? ==> r.errors != []
      ensures Faultless(before, f.restore) ==> host.Now() == before.state
      ensures Faultless(before, f.restore) && ReadsBackClean(before, f.restore) ==> !r.RestorationIncomplete?
      ensures Writes(old(ledger.Now()), ledger.Now(), Receipt(operation + "-failed", attempt, false, "", target),
                     f.failureReceipt)
      ensures r.FailureUnrecorded? <==> !CanPublish(operation + "-failed", f.failureReceipt, old(ledger.files))
    {
      var errors := host.RestoreTransaction(before, f.restore, scope, from);
      var recorded := ledger.WriteReceipt(
        Receipt(operation + "-failed", attempt, false, "", target), f.failureReceipt, start, ledgerFrom);
      if recorded.None? {
        return FailureUnrecorded(errors);
      }
      return if errors == [] then PriorStateRestored else RestorationIncomplete(errors);
    }

    /** The body of the `try` statement of `switch_transaction`; `None` is an exception. */
    method TryForward(operation: string, attempt: string, target: Release, oldTarget: Option<Release>, oldManaged: bool,
                      rendered: PerUnit<Bytes>, f: SwitchFaults,
                      ghost scope: Scope, ghost from: nat, ghost start: LedgerState, ghost ledgerFrom: nat)
      returns (receipt: Option<string>)
      requires ledger.Tracks(start, ledgerFrom) && from == |host.trace|
      requires scope.entry == host.Now() && scope.target == target && scope.rendered == rendered
      requires scope.outgoing == if oldTarget.Some? && oldManaged && oldTarget.value != target then oldTarget else None
      modifies host, ledger
      ensures ledger.Tracks(start, ledgerFrom) && old(ledger.trace) <= ledger.trace
      ensures host.Tracks(scope, from) && old(host.trace) <= host.trace
      ensures host.Now() == ForwardState(scope, f) && host.Seen(scope, from) == ForwardTrail(scope, f)
      ensures receipt.Some? <==>
        ForwardSucceeds(scope.outgoing, f) && CanPublish(operation, f.finalReceipt, old(ledger.files))
      ensures receipt.Some? ==> host.Now() == SwitchedState(scope)
      ensures receipt.Some? ==> receipt.value == NewName(operation, f.finalReceipt, old(ledger.files))
      ensures if ForwardSucceeds(scope.outgoing, f)
              then Writes(old(ledger.Now()), ledger.Now(), Receipt(operation, attempt, true, "", target),
                          f.finalReceipt)
              else ledger.Now() == old(ledger.Now())
    {
      receipt := None;
      var raised := GoForward(target, oldTarget, oldManaged, rendered, f, scope, from);
      if !raised {
        var written := ledger.WriteReceipt(
          Receipt(operation, attempt, true, "", target), f.finalReceipt, start, ledgerFrom);
        receipt := if written.Some? then Some(written.value.0) else None;
      }
    }

    /** The `try` statement of `switch_transaction`. */
    method Attempt(operation: string, attempt: string, target: Release, before: Before, oldManaged: bool,
                   rendered: PerUnit<Bytes>, f: SwitchFaults,
                   ghost scope: Scope, ghost from: nat, ghost start: LedgerState, ghost ledgerFrom: nat)
      returns (r: SwitchResult, ghost tried: LedgerState)
      requires ledger.Tracks(start, ledgerFrom) && from == |host.trace|
      requires scope.entry == host.Now() == before.state && scope.target == target && scope.rendered == rendered
      requires var out := before.priorTarget;
        scope.outgoing == if out.Some? && oldManaged && out.value != target then out else None
      modifies host, ledger
      ensures ledger.Tracks(start, ledgerFrom) && old(ledger.trace) <= ledger.trace
      ensures host.Tracks(scope, from) && old(host.trace) <= host.trace
      ensures Ends(r, before, f, scope, host.Seen(scope, from), host.Now())
      ensures r.Switched? <==>
        ForwardSucceeds(scope.outgoing, f) && CanPublish(operation, f.finalReceipt, old(ledger.files))
      ensures Concludes(r, operation, attempt, target, f, ForwardSucceeds(scope.outgoing, f),
                        old(ledger.Now()), tried, ledger.Now())
    {
      var receipt := TryForward(
        operation, attempt, target, before.priorTarget, oldManaged, rendered, f, scope, from, start, ledgerFrom);
      tried := ledger.Now();
      if receipt.Some? {
        r := Switched(receipt.value);
        SwitchedEnds(r, before, f, scope, host.Seen(scope, from), host.Now());
      } else {
        r := Abandon(operation, attempt, target, before, f, scope, from, start, ledgerFrom);
        AbandonedEnds(r, before, f, scope, host.Seen(scope, from), host.Now());
      }
    }

    /** `switch_transaction`, up to its start receipt. */
    method Begin(operation: string, attempt: string, target: Release, o: Observed, startReceipt: Attempts,
                 ghost start: LedgerState, ghost ledgerFrom: nat)
      returns (started: bool)
      requires ledger.Tracks(start, ledgerFrom)
      modifies ledger
      ensures ledger.Tracks(start, ledgerFrom) && old(ledger.trace) <= ledger.trace
      ensures started <==>
        CanStart(host.Now(), target, o)
        && CanPublish(operation + "-started", startReceipt, old(ledger.files))
      ensures if CanStart(host.Now(), target, o)
              then Writes(old(ledger.Now()), ledger.Now(), Receipt(operation + "-started", attempt, false, "", target),
                          startReceipt)
              else ledger.Now() == old(ledger.Now())
    {
      if !CanStart(host.Now(), target, o) {
        return false;
      }
      var receipt := Receipt(operation + "-started", attempt, false, "", target);
      var written := ledger.WriteReceipt(receipt, startReceipt, start, ledgerFrom);
      return written.Some?;
    }

    /** `switch_transaction`; `receipts` are the ones there once it has started. */
    method Switch(operation: string, attempt: string, target: Release, o: Observed, rendered: PerUnit<Bytes>,
                  f: SwitchFaults, ghost start: LedgerState, ghost ledgerFrom: nat)
      returns (r: SwitchResult, ghost receipts: map<string, File>)
      requires ledger.Tracks(start, ledgerFrom)
      modifies host, ledger
      ensures ledger.Tracks(start, ledgerFrom) && old(ledger.trace) <= ledger.trace
      ensures !r.NotStarted? <==>
        CanStart(old(host.Now()), target, o) && CanPublish(operation + "-started", f.startReceipt, old(ledger.files))
      ensures !r.NotStarted? ==> KeepsReceipts(start.files, receipts)
      ensures !r.NotStarted? ==>
        (r.Switched? <==>
          && ForwardSucceeds(RecordedOutgoing(old(host.Now()), target, o), f)
          && CanPublish(operation, f.finalReceipt, receipts))
      // when it starts, and when it succeeds
      ensures !r.NotStarted? ==>
        && target in o.verifies && o.readable && o.backupWritten
        && forall u :: old(host.units).At(u).Installed? ==> old(host.units).At(u).mode in {0x180, 0x1A4}
      ensures r.Switched? <==>
        && !r.NotStarted? && CanPublish(operation, f.finalReceipt, receipts)
        && f.install.renders && f.install.readable && (forall u :: f.install.writes.At(u).Done?)
        && !f.install.reloadRaises && (forall u :: f.install.loaded.At(u))
        && (RecordedOutgoing(old(host.Now()), target, o).Some? ==> f.setPrevious.Done?)
        && f.setCurrent.Done? && f.enable.Done? && f.restart.Done? && f.timerStable
        && f.snapshotProducer && f.storageProducer && f.webRestart && f.postflight
      ensures r.Switched? ==>
        && host.current == LinksTo(target) && host.timer == TimerState(true, true)
        && (forall u :: host.units.At(u) == Installed(rendered.At(u), 0x180))
        && var out := if old(host.current).LinksTo? then Some(old(host.current).target) else o.running;
        host.previous == if out.Some? && out.value in o.verifies && out.value != target
                         then LinksTo(out.value) else old(host.previous)
      ensures r.PriorStateRestored? ==> host.Now() == old(host.Now())
      ensures old(host.trace) <= host.trace
      ensures Last(StatesSince(old(host.Now()), |old(host.trace)|)) == host.Now()
      ensures var states := StatesSince(old(host.Now()), |old(host.trace)|);
        PossibleTransaction(Transaction(target, o, rendered, f, states, r))
      // what it leaves in the ledger: nothing but these three receipts
      ensures forall n :: n in ledger.files && IsReceiptName(n) && n !in old(ledger.files) ==>
        || ledger.files[n] == ReceiptFile(Receipt(operation + "-started", attempt, false, "", target))
        || ledger.files[n] == ReceiptFile(Receipt(operation, attempt, true, "", target))
        || ledger.files[n] == ReceiptFile(Receipt(operation + "-failed", attempt, false, "", target))
      ensures !r.NotStarted? ==>
        OneNew(Receipt(operation + "-started", attempt, false, "", target),
               old(ledger.files), ledger.files, ledger.latest)
      ensures r.PriorStateRestored? || r.RestorationIncomplete? ==>
        OneNew(Receipt(operation + "-failed", attempt, false, "", target),
               old(ledger.files), ledger.files, ledger.latest)
      ensures r.Switched? ==>
        && NewReceipts(Receipt(operation, attempt, true, "", target), old(ledger.files), ledger.files) == {r.receipt}
        && operation in ledger.latest && ledger.latest[operation] == r.receipt
      ensures r.NotStarted? || r.Switched? ==>
        NewReceipts(Receipt(operation + "-failed", attempt, false, "", target), old(ledger.files), ledger.files) == {}
      // the success receipt, and its link, exactly if everything worked up to the write that shows it
      ensures NewReceipts(Receipt(operation, attempt, true, "", target), old(ledger.files), ledger.files) != {} <==>
        && !r.NotStarted? && ForwardSucceeds(RecordedOutgoing(old(host.Now()), target, o), f)
        && LeavesReceipt(operation, f.finalReceipt, receipts)
      ensures !LinkMoved(operation, old(ledger.latest), ledger.latest) <==>
        r.NotStarted? || !ForwardSucceeds(RecordedOutgoing(old(host.Now()), target, o), f)
        || !MovesLatest(operation, f.finalReceipt, receipts)
    {
      ghost var scope, from := ScopeOf(host.Now(), target, o, rendered), |host.trace|;
      r, receipts := Conduct(operation, attempt, target, o, rendered, f, scope, from, start, ledgerFrom);
      RunIsPossible(target, o, rendered, f, scope, from, r);
      RenderedInScope(rendered);
    }

    lemma RunIsPossible(target: Release, o: Observed, rendered: PerUnit<Bytes>, f: SwitchFaults, scope: Scope,
                        from: nat, r: SwitchResult)
      requires scope == ScopeOf(scope.entry, target, o, rendered)
      requires from <= |host.trace| && host.Tracks(scope, from)
      requires r.NotStarted? ==> host.Now() == scope.entry && |host.trace| == from
      requires !r.NotStarted? ==>
        CanStart(scope.entry, target, o)
        && Ends(r, BeforeOf(scope.entry, o), f, scope, host.Seen(scope, from), host.Now())
      ensures Last(StatesSince(scope.entry, from)) == host.Now()
      ensures PossibleTransaction(Transaction(target, o, rendered, f, StatesSince(scope.entry, from), r))
    {
      assert host.States(scope, from) == StatesSince(scope.entry, from);
      if r.NotStarted? {
        assert StatesSince(scope.entry, from) == [scope.entry];
        IdleIsPossible(target, o, rendered, f, scope.entry);
      } else {
        StartedIsPossible(target, o, rendered, f, scope.entry, host.trace[from..], r);
      }
    }

    /** The transaction, with what it leaves on the host and in the ledger. */
    method Conduct(operation: string, attempt: string, target: Release, o: Observed, rendered: PerUnit<Bytes>,
                   f: SwitchFaults, ghost scope: Scope, ghost from: nat,
                   ghost start: LedgerState, ghost ledgerFrom: nat)
      returns (r: SwitchResult, ghost receipts: map<string, File>)
      requires ledger.Tracks(start, ledgerFrom)
      requires scope == ScopeOf(host.Now(), target, o, rendered) && from == |host.trace|
      modifies host, ledger
      ensures ledger.Tracks(start, ledgerFrom) && old(ledger.trace) <= ledger.trace
      ensures !r.NotStarted? <==>
        CanStart(scope.entry, target, o) && CanPublish(operation + "-started", f.startReceipt, old(ledger.files))
      ensures r.NotStarted? ==> host.Now() == old(host.Now()) && host.trace == old(host.trace)
      ensures host.Tracks(scope, from) && old(host.trace) <= host.trace
      ensures !r.NotStarted? ==>
        && KeepsReceipts(start.files, receipts)
        && (r.Switched? <==> ForwardSucceeds(scope.outgoing, f) && CanPublish(operation, f.finalReceipt, receipts))
        && Ends(r, BeforeOf(scope.entry, o), f, scope, host.Seen(scope, from), host.Now())
      ensures forall n :: n in ledger.files && IsReceiptName(n) && n !in old(ledger.files) ==>
        || ledger.files[n] == ReceiptFile(Receipt(operation + "-started", attempt, false, "", target))
        || ledger.files[n] == ReceiptFile(Receipt(operation, attempt, true, "", target))
        || ledger.files[n] == ReceiptFile(Receipt(operation + "-failed", attempt, false, "", target))
      ensures !r.NotStarted? ==>
        OneNew(Receipt(operation + "-started", attempt, false, "", target),
               old(ledger.files), ledger.files, ledger.latest)
      ensures r.PriorStateRestored? || r.RestorationIncomplete? ==>
        OneNew(Receipt(operation + "-failed", attempt, false, "", target),
               old(ledger.files), ledger.files, ledger.latest)
      ensures r.Switched? ==>
        && NewReceipts(Receipt(operation, attempt, true, "", target), old(ledger.files), ledger.files) == {r.receipt}
        && operation in ledger.latest && ledger.latest[operation] == r.receipt
      ensures r.NotStarted? || r.Switched? ==>
        NewReceipts(Receipt(operation + "-failed", attempt, false, "", target), old(ledger.files), ledger.files) == {}
      ensures NewReceipts(Receipt(operation, attempt, true, "", target), old(ledger.files), ledger.files) != {} <==>
        && !r.NotStarted? && ForwardSucceeds(scope.outgoing, f)
        && LeavesReceipt(operation, f.finalReceipt, receipts)
      ensures !LinkMoved(operation, old(ledger.latest), ledger.latest) <==>
        r.NotStarted? || !ForwardSucceeds(scope.outgoing, f)
        || !MovesLatest(operation, f.finalReceipt, receipts)
    {
      ghost var before := ledger.Now();
      ghost var begun, tried;
      r, begun, tried := Transact(operation, attempt, target, o, rendered, f, scope, from, start, ledgerFrom);
      receipts := begun.files;
      EvidenceOf(r, operation, attempt, target, f, CanStart(scope.entry, target, o),
                 ForwardSucceeds(scope.outgoing, f), before, begun, tried, ledger.Now());
    }

    method Transact(operation: string, attempt: string, target: Release, o: Observed, rendered: PerUnit<Bytes>,
                    f: SwitchFaults, ghost scope: Scope, ghost from: nat,
                    ghost start: LedgerState, ghost ledgerFrom: nat)
      returns (r: SwitchResult, ghost begun: LedgerState, ghost tried: LedgerState)
      requires ledger.Tracks(start, ledgerFrom)
      requires scope == ScopeOf(host.Now(), target, o, rendered) && from == |host.trace|
      modifies host, ledger
      ensures ledger.Tracks(start, ledgerFrom) && old(ledger.trace) <= ledger.trace
      ensures !r.NotStarted? <==>
        CanStart(scope.entry, target, o) && CanPublish(operation + "-started", f.startReceipt, old(ledger.files))
      ensures r.NotStarted? ==> host.Now() == old(host.Now()) && host.trace == old(host.trace)
      ensures if CanStart(scope.entry, target, o)
              then Writes(old(ledger.Now()), begun, Receipt(operation + "-started", attempt, false, "", target),
                          f.startReceipt)
              else begun == old(ledger.Now())
      ensures r.NotStarted? ==> ledger.Now() == begun
      ensures !r.NotStarted? ==>
        && KeepsReceipts(start.files, begun.files)
        && (r.Switched? <==> ForwardSucceeds(scope.outgoing, f) && CanPublish(operation, f.finalReceipt, begun.files))
        && host.Tracks(scope, from) && old(host.trace) <= host.trace
        && Ends(r, BeforeOf(scope.entry, o), f, scope, host.Seen(scope, from), host.Now())
        && Concludes(r, operation, attempt, target, f, ForwardSucceeds(scope.outgoing, f), begun, tried, ledger.Now())
    {
      var entry := host.Now();
      var oldTarget := OutgoingRelease(entry, o);
      var oldManaged := oldTarget.Some? && oldTarget.value in o.verifies;
      var started := Begin(operation, attempt, target, o, f.startReceipt, start, ledgerFrom);
      begun, tried := ledger.Now(), ledger.Now();
      r := NotStarted;
      if started {
        var before := Before(entry, o.webActive, o.storageLoaded, oldTarget);
        r, tried := Attempt(
          operation, attempt, target, before, oldManaged, rendered, f, scope, from, start, ledgerFrom);
      }
    }

    /** `rollback_release`: back to the recorded previous release, or to an explicit one.
        `None` is the exception raised when there is nothing to go back to. */
    method Rollback(attempt: string, explicit: Option<Release>, resolves: bool, o: Observed,
                    rendered: PerUnit<Bytes>, f: SwitchFaults)
      returns (r: Option<SwitchResult>, ghost receipts: map<string, File>)
      requires Consistent(ledger.Now())
      modifies host, ledger
      ensures ledger.Tracks(old(ledger.Now()), |old(ledger.trace)|) && old(ledger.trace) <= ledger.trace
      ensures old(host.trace) <= host.trace
      ensures r.None? <==> explicit.None? && !(resolves && old(host.previous).LinksTo?)
      ensures r.None? ==> host.Now() == old(host.Now()) && host.trace == old(host.trace)
      ensures r.None? ==> ledger.Now() == old(ledger.Now())
      ensures r.Some? ==>
        var target := if explicit.Some? then explicit.value else old(host.previous).target;
        var states := StatesSince(old(host.Now()), |old(host.trace)|);
        Last(states) == host.Now() && PossibleTransaction(Transaction(target, o, rendered, f, states, r.value))
      // what it leaves in the ledger
      ensures r.Some? ==>
        var target := if explicit.Some? then explicit.value else old(host.previous).target;
        forall n :: n in ledger.files && IsReceiptName(n) && n !in old(ledger.files) ==>
          || ledger.files[n] == ReceiptFile(Receipt("rollback-started", attempt, false, "", target))
          || ledger.files[n] == ReceiptFile(Receipt("rollback", attempt, true, "", target))
          || ledger.files[n] == ReceiptFile(Receipt("rollback-failed", attempt, false, "", target))
      ensures r.Some? && !r.value.NotStarted? ==>
        var target := if explicit.Some? then explicit.value else old(host.previous).target;
        OneNew(Receipt("rollback-started", attempt, false, "", target), old(ledger.files), ledger.files, ledger.latest)
      ensures r.Some? && (r.value.PriorStateRestored? || r.value.RestorationIncomplete?) ==>
        var target := if explicit.Some? then explicit.value else old(host.previous).target;
        OneNew(Receipt("rollback-failed", attempt, false, "", target), old(ledger.files), ledger.files, ledger.latest)
      ensures r.Some? && r.value.Switched? ==>
        var target := if explicit.Some? then explicit.value else old(host.previous).target;
        && host.current == LinksTo(target)
        && NewReceipts(Receipt("rollback", attempt, true, "", target), old(ledger.files), ledger.files)
           == {r.value.receipt}
        && "rollback" in ledger.latest && ledger.latest["rollback"] == r.value.receipt
      ensures r.Some? ==>
        var target := if explicit.Some? then explicit.value else old(host.previous).target;
        NewReceipts(Receipt("rollback", attempt, true, "", target), old(ledger.files), ledger.files) != {} <==>
          && !r.value.NotStarted? && ForwardSucceeds(RecordedOutgoing(old(host.Now()), target, o), f)
          && LeavesReceipt("rollback", f.finalReceipt, receipts)
    {
      receipts := ledger.files;
      var target: Release;
      if explicit.Some? {
        target := explicit.value;
      } else if resolves && host.previous.LinksTo? {
        target := host.previous.target;
      } else {
        return None, receipts;
      }
      assert "rollback" + "-started" == "rollback-started" && "rollback" + "-failed" == "rollback-failed";
      var switch;
      switch, receipts := Switch("rollback", attempt, target, o, rendered, f, ledger.Now(), |ledger.trace|);
      return Some(switch), receipts;
    }

    /** `write_create_only` of a completion sidecar. */
    method CreateSidecar(key: Key, content: File, how: Create) returns (r: Create)
      requires key !in completions.sidecars
      modifies `completions, `trace
      ensures r == how
      ensures completions == old(completions).(sidecars :=
        if how.Created? then old(completions).sidecars[key := content]
        else if how.Interrupted? then old(completions).sidecars[key := Truncated]
        else old(completions).sidecars)
      ensures TraceGrows(old(completions), trace, |old(trace)|, key) && old(trace) <= trace
      ensures StaysProper(old(completions), trace, |old(trace)|)
    {
      r := how;
      if !how.Exists? {
        ghost var partial := completions.(sidecars := completions.sidecars[key := Truncated]);
        trace := trace + [partial];
        if how.Created? {
          completions := completions.(sidecars := completions.sidecars[key := content]);
        } else if how.Interrupted? {
          completions := completions.(sidecars := completions.sidecars[key := Truncated]);
        }
      }
      trace := trace + [completions];
    }

    /** `_write_completion`.  `None` is an exception. */
    method WriteCompletion(value: Completion, f: CompletionFaults) returns (r: Option<Completion>)
      requires value.key == KeyOf(value.head, value.configSha)
      modifies `completions, `trace
      ensures var was, now := ReadCompletion(value.key, old(completions), ledger.files),
                              ReadCompletion(value.key, completions, ledger.files);
        && (was.Present? ==> r == Some(was.completion) && completions == old(completions))
        && (was.Corrupt? ==> r.None? && completions == old(completions))
        && (was.Absent? ==>
             (r.Some? <==>
               && f.temporary.Created? && f.sidecar.Created? && f.rename.Done? && f.synced
               && value.receiptPath in ledger.files && value.receiptSha == Sha256(ledger.files[value.receiptPath])
               && ledger.files[value.receiptPath].ReceiptFile?
               && var receipt := ledger.files[value.receiptPath].receipt;
               receipt.kind == "deploy" && receipt.success && receipt.head == value.head))
        && (was.Absent? && r.Some? ==> r == Some(value))
        && (r.Some? ==> now == Present(r.value))
        && (was.Absent? && r.None? ==> !now.Present? || now == Present(value))
        && (was.Absent? ==> (Wedged(completions, value.key) <==> WriteWedges(f)))
      ensures Grows(old(completions), completions) && OnlyTouches(old(completions), completions, value.key)
      ensures TraceGrows(old(completions), trace, |old(trace)|, value.key) && old(trace) <= trace
      ensures IsReceiptName(value.receiptPath) ==> StaysProper(old(completions), trace, |old(trace)|)
      ensures IsReceiptName(value.receiptPath) && Proper(old(completions)) ==> Proper(completions)
    {
      var key := value.key;
      if key in completions.records || key in completions.sidecars {
        var existing := ReadCompletion(key, completions, ledger.files);
        return if existing.Present? then Some(existing.completion) else None;
      }
      var written := PublishCompletion(value, f);
      if !written {
        return None;
      }
      var readback := ReadCompletion(key, completions, ledger.files);
      return if readback.Present? then Some(readback.completion) else None;
    }

    /** The writes of `_write_completion`: sidecar first, then the completion by rename. */
    method PublishCompletion(value: Completion, f: CompletionFaults) returns (written: bool)
      requires value.key !in completions.records && value.key !in completions.sidecars
      modifies `completions, `trace
      ensures written <==> CompletionSucceeds(f)
      ensures var file, before := CompletionFile(value), old(completions);
        completions ==
          if !f.temporary.Created? || f.sidecar.Exists? || f.sidecar.Failed? then before
          else if f.sidecar.Interrupted? then before.(sidecars := before.sidecars[value.key := Truncated])
          else Completions(
            if f.rename.TakesEffect() then before.records[value.key := file] else before.records,
            before.sidecars[value.key := CompletionSidecarFile(Sha256(file), value.key)])
      ensures TraceGrows(old(completions), trace, |old(trace)|, value.key) && old(trace) <= trace
      ensures IsReceiptName(value.receiptPath) ==> StaysProper(old(completions), trace, |old(trace)|)
    {
      written := false;
      if f.temporary.Created? {
        var file := CompletionFile(value);
        var created := CreateSidecar(value.key, CompletionSidecarFile(Sha256(file), value.key), f.sidecar);
        if created.Created? {
          if f.rename.TakesEffect() {
            completions := completions.(records := completions.records[value.key := file]);
            trace := trace + [completions];
          }
          written := !f.rename.Raises() && f.synced;
        }
      }
    }

    /** The completed branch of `deploy_release`: read-only, whatever it finds. */
    method Replay(completion: Completion, d: DeployInputs) returns (r: DeployResult)
      ensures r == Replayed(completion) || r == ReplayRefused
      ensures r.Replayed? <==>
        && host.current == LinksTo(d.target) && (forall u :: host.units.At(u) == Installed(d.rendered.At(u), 0x180))
        && d.loaded && d.replayPostflight
    {
      InstalledUnitByUnit(host.units, d.rendered);
      if host.current != LinksTo(d.target) || host.units != InstalledUnits(d.rendered) || !d.loaded {
        return ReplayRefused;
      }
      return if d.replayPostflight then Replayed(completion) else ReplayRefused;
    }

    /** The evidence `deploy_release` writes once its switch has succeeded. */
    method Conclude(attempt: string, d: DeployInputs, ghost start: LedgerState, ghost ledgerFrom: nat)
      returns (r: DeployResult)
      requires ledger.Tracks(start, ledgerFrom)
      requires ReadCompletion(KeyFor(d), completions, ledger.files).Absent?
      modifies ledger, `completions, `trace
      ensures ledger.Tracks(start, ledgerFrom) && old(ledger.trace) <= ledger.trace
      ensures r.Deployed? || r.EvidenceLost?
      ensures r.Deployed? ==>
        && IsReceiptName(r.completion.receiptPath)
        && ReadCompletion(KeyFor(d), completions, ledger.files) == Present(r.completion)
      ensures r.Deployed? <==> CanPublish("deploy", d.receipt, old(ledger.files)) && CompletionSucceeds(d.completion)
      ensures r.Deployed? ==> RecordsDeploy(r.completion, attempt, d, old(ledger.files), ledger.Now())
      ensures KeepsReceipts(old(ledger.files), ledger.files)
      ensures forall n :: n in ledger.files && IsReceiptName(n) && n !in old(ledger.files) ==>
        ledger.files[n] == ReceiptFile(Receipt("deploy", attempt, true, d.head, d.payload))
      ensures TraceGrows(old(completions), trace, |old(trace)|, KeyFor(d)) && old(trace) <= trace
      ensures StaysProper(old(completions), trace, |old(trace)|) && (Proper(old(completions)) ==> Proper(completions))
      ensures Grows(old(completions), completions) && OnlyTouches(old(completions), completions, KeyFor(d))
    {
      var receipt := Receipt("deploy", attempt, true, d.head, d.payload);
      var written := ledger.WriteReceipt(receipt, d.receipt, start, ledgerFrom);
      if written.None? {
        return EvidenceLost;
      }
      var (name, digest) := written.value;
      var value := Completion(KeyFor(d), d.head, d.configSha, name, digest, d.completedAt);
      var completion := WriteCompletion(value, d.completion);
      return if completion.Some? then Deployed(completion.value) else EvidenceLost;
    }

    /** `deploy_release`, from the completion lookup on; `receipts` are the ones there when
        the switch returns. */
    method Deploy(attempt: string, d: DeployInputs)
      returns (r: DeployResult, ghost event: DeployEvent, ghost receipts: map<string, File>)
      requires Consistent(ledger.Now())
      modifies host, ledger, `completions, `trace
      ensures ledger.Tracks(old(ledger.Now()), |old(ledger.trace)|) && old(ledger.trace) <= ledger.trace
      ensures old(host.trace) <= host.trace
      ensures event.key == KeyFor(d) && event.result == r
      ensures event.before == old(completions) && event.receiptsBefore == old(ledger.files)
      ensures event.after == completions && event.receiptsAfter == ledger.files
      ensures event.switch.None? ==> host.Now() == old(host.Now()) && host.trace == old(host.trace)
      ensures event.switch.Some? ==>
        && event.switch.value.target == d.target
        && event.switch.value.states == StatesSince(old(host.Now()), |old(host.trace)|)
        && Last(event.switch.value.states) == host.Now()
      ensures PossibleDeploy(event)
      ensures r.Refused? <==>
        !d.prepared || !d.selectorReadable || ReadCompletion(KeyFor(d), old(completions), old(ledger.files)).Corrupt?
      ensures r.Replayed? <==>
        && !r.Refused? && ReadCompletion(KeyFor(d), old(completions), old(ledger.files)).Present?
        && old(host.current) == LinksTo(d.target)
        && (forall u :: old(host.units).At(u) == Installed(d.rendered.At(u), 0x180))
        && d.loaded && d.replayPostflight
      ensures r.Deployed? <==>
        && event.switch.Some? && event.switch.value.result.Switched?
        && CanPublish("deploy", d.receipt, receipts)
        && d.completion.temporary.Created? && d.completion.sidecar.Created?
        && d.completion.rename.Done? && d.completion.synced
      ensures r.Deployed? ==>
        var receipt := ReceiptFile(Receipt("deploy", attempt, true, d.head, d.payload));
        var path := r.completion.receiptPath;
        && r.completion
          == Completion(KeyOf(d.head, d.configSha), d.head, d.configSha, path, Sha256(receipt), d.completedAt)
        && path !in receipts && path in ledger.files && ledger.files[path] == receipt
        && "deploy" in ledger.latest && ledger.latest["deploy"] == path
      ensures KeepsReceipts(old(ledger.files), receipts)
      // no receipt but those of the switch and the one of the deploy
      ensures forall n :: n in ledger.files && IsReceiptName(n) && n !in old(ledger.files) ==>
        || ledger.files[n] == ReceiptFile(Receipt("deploy-switch-started", attempt, false, "", d.target))
        || ledger.files[n] == ReceiptFile(Receipt("deploy-switch", attempt, true, "", d.target))
        || ledger.files[n] == ReceiptFile(Receipt("deploy-switch-failed", attempt, false, "", d.target))
        || ledger.files[n] == ReceiptFile(Receipt("deploy", attempt, true, d.head, d.payload))
      ensures TraceGrows(old(completions), trace, |old(trace)|, KeyFor(d)) && old(trace) <= trace
      ensures StaysProper(old(completions), trace, |old(trace)|) && (Proper(old(completions)) ==> Proper(completions))
    {
      var key := KeyFor(d);
      receipts := ledger.files;
      ghost var before, receiptsBefore := completions, ledger.files;
      ghost var start, ledgerFrom := ledger.Now(), |ledger.trace|;
      var lookup := ReadCompletion(key, completions, ledger.files);
      if !d.prepared || lookup.Corrupt? || !d.selectorReadable {
        r := Refused;
        event := DeployEvent(key, before, receiptsBefore, completions, ledger.files, None, r);
      } else if lookup.Present? {
        r := Replay(lookup.completion, d);
        event := DeployEvent(key, before, receiptsBefore, completions, ledger.files, None, r);
      } else {
        ghost var t;
        r, t, receipts := CutOver(attempt, d, start, ledgerFrom);
        event := DeployEvent(key, before, receiptsBefore, completions, ledger.files, Some(t), r);
      }
    }

    method SwitchTo(attempt: string, d: DeployInputs, ghost start: LedgerState, ghost ledgerFrom: nat)
      returns (switch: SwitchResult, ghost t: Transaction)
      requires ledger.Tracks(start, ledgerFrom)
      modifies host, ledger
      ensures ledger.Tracks(start, ledgerFrom) && old(ledger.trace) <= ledger.trace
      ensures forall n :: n in ledger.files && IsReceiptName(n) && n !in old(ledger.files) ==>
        IsSwitchReceipt(ledger.files[n], attempt, d.target)
      ensures old(host.trace) <= host.trace && t.result == switch
      ensures t.target == d.target && t.rendered == d.rendered
      ensures t.states == StatesSince(old(host.Now()), |old(host.trace)|)
      ensures Last(t.states) == host.Now() && PossibleTransaction(t)
    {
      ghost var entry, from := host.Now(), |host.trace|;
      ghost var begun;
      switch, begun := Switch(
        "deploy-switch", attempt, d.target, d.observed, d.rendered, d.switchFaults, start, ledgerFrom);
      assert "deploy-switch" + "-started" == "deploy-switch-started";
      assert "deploy-switch" + "-failed" == "deploy-switch-failed";
      t := Transaction(d.target, d.observed, d.rendered, d.switchFaults, StatesSince(entry, from), switch);
    }

    /** `deploy_release` of a key without completion: the switch, then its evidence. */
    method CutOver(attempt: string, d: DeployInputs, ghost start: LedgerState, ghost ledgerFrom: nat)
      returns (r: DeployResult, ghost t: Transaction, ghost receipts: map<string, File>)
      requires ledger.Tracks(start, ledgerFrom)
      requires ReadCompletion(KeyFor(d), completions, ledger.files).Absent?
      modifies host, ledger, `completions, `trace
      ensures ledger.Tracks(start, ledgerFrom) && old(ledger.trace) <= ledger.trace
      ensures old(host.trace) <= host.trace
      ensures t.target == d.target && t.states == StatesSince(old(host.Now()), |old(host.trace)|)
      ensures Last(t.states) == host.Now() && PossibleTransaction(t)
      ensures r == SwitchFailed(t.result) || r.EvidenceLost? || r.Deployed?
      ensures t.result.Switched? <==> !r.SwitchFailed?
      ensures r.Deployed? <==>
        t.result.Switched? && CanPublish("deploy", d.receipt, receipts) && CompletionSucceeds(d.completion)
      ensures r.Deployed? ==>
        && IsReceiptName(r.completion.receiptPath)
        && ReadCompletion(KeyFor(d), completions, ledger.files) == Present(r.completion)
        && RecordsDeploy(r.completion, attempt, d, receipts, ledger.Now())
      ensures r.SwitchFailed? ==> completions == old(completions) && trace == old(trace)
      ensures forall n :: n in ledger.files && IsReceiptName(n) && n !in old(ledger.files) ==>
        || IsSwitchReceipt(ledger.files[n], attempt, d.target)
        || ledger.files[n] == ReceiptFile(Receipt("deploy", attempt, true, d.head, d.payload))
      ensures KeepsReceipts(start.files, receipts)
      ensures Grows(old(completions), completions) && OnlyTouches(old(completions), completions, KeyFor(d))
      ensures TraceGrows(old(completions), trace, |old(trace)|, KeyFor(d)) && old(trace) <= trace
      ensures StaysProper(old(completions), trace, |old(trace)|) && (Proper(old(completions)) ==> Proper(completions))
    {
      var switch;
      switch, t := SwitchTo(attempt, d, start, ledgerFrom);
      receipts := ledger.files;
      if switch.Switched? {
        r := Conclude(attempt, d, start, ledgerFrom);
      } else {
        r := SwitchFailed(switch);
      }
    }
  }

  /** What is selected and installed is still what the completed deploy left. */
  predicate RunsAsCompleted(s: HostState, d: DeployInputs) {
    s.current == LinksTo(d.target) && s.units == InstalledUnits(d.rendered) && d.loaded && d.replayPostflight
  }

  /** A state counts as what was deployed exactly if its selector and its units are those any
      successful switch to this target, with these units, ends in. */
  lemma RunsAsSwitched(s: HostState, d: DeployInputs, scope: Scope)
    requires scope.target == d.target && scope.rendered == d.rendered
    ensures RunsAsCompleted(s, d) <==>
      && s.current == SwitchedState(scope).current && s.units == SwitchedState(scope).units
      && d.loaded && d.replayPostflight
  {
  }

  /** What `_read_completion` accepts, in full. */
  lemma PresentExactly(key: Key, c: Completions, receipts: map<string, File>, value: Completion)
    ensures ReadCompletion(key, c, receipts) == Present(value) <==>
      && key in c.records && c.records[key] == CompletionFile(value)
      && key in c.sidecars && c.sidecars[key] == CompletionSidecarFile(Sha256(CompletionFile(value)), key)
      && value.key == key == KeyOf(value.head, value.configSha)
      && value.receiptPath in receipts
      && var file := receipts[value.receiptPath];
      && Sha256(file) == value.receiptSha && file.ReceiptFile?
      && file.receipt.kind == "deploy" && file.receipt.success && file.receipt.head == value.head
    ensures ReadCompletion(key, c, receipts).Absent? <==> key !in c.records && key !in c.sidecars
  {
  }

  predicate IsSwitchReceipt(file: File, attempt: string, target: Release) {
    || file == ReceiptFile(Receipt("deploy-switch-started", attempt, false, "", target))
    || file == ReceiptFile(Receipt("deploy-switch", attempt, true, "", target))
    || file == ReceiptFile(Receipt("deploy-switch-failed", attempt, false, "", target))
  }

  /** The completion and the receipt it names are those of this deploy. */
  ghost predicate RecordsDeploy(c: Completion, attempt: string, d: DeployInputs, before: map<string, File>,
                                after: LedgerState) {
    var receipt := ReceiptFile(Receipt("deploy", attempt, true, d.head, d.payload));
    && c == Completion(KeyFor(d), d.head, d.configSha, c.receiptPath, Sha256(receipt), d.completedAt)
    && c.receiptPath !in before && c.receiptPath in after.files && after.files[c.receiptPath] == receipt
    && "deploy" in after.latest && after.latest["deploy"] == c.receiptPath
  }

  function KeyFor(d: DeployInputs): Key { KeyOf(d.head, d.configSha) }

  ghost predicate TraceGrows(start: Completions, trace: seq<Completions>, from: nat, key: Key) {
    forall k :: from <= k < |trace| ==> Grows(start, trace[k]) && OnlyTouches(start, trace[k], key)
  }

  /** One `deploy_release` seen from outside. */
  datatype DeployEvent = DeployEvent(
    key: Key, before: Completions, receiptsBefore: map<string, File>,
    after: Completions, receiptsAfter: map<string, File>,
    switch: Option<Transaction>, result: DeployResult)

  ghost predicate PossibleDeploy(e: DeployEvent) {
    var lookup := ReadCompletion(e.key, e.before, e.receiptsBefore);
    && Grows(e.before, e.after) && OnlyTouches(e.before, e.after, e.key)
    && KeepsReceipts(e.receiptsBefore, e.receiptsAfter)
    && (Proper(e.before) ==> Proper(e.after))
    && (lookup.Corrupt? ==> e.result.Refused?)
    && (lookup.Present? ==> e.result.Refused? || e.result == Replayed(lookup.completion) || e.result.ReplayRefused?)
    && (e.switch.None? <==> e.result.Refused? || e.result.Replayed? || e.result.ReplayRefused?)
    && (!(e.switch.Some? && e.switch.value.result.Switched?) ==> e.after == e.before)
    && (e.switch.Some? ==>
         && PossibleTransaction(e.switch.value)
         && (e.switch.value.result.Switched? <==> e.result.Deployed? || e.result.EvidenceLost?))
    && (e.result.Deployed? ==>
         && IsReceiptName(e.result.completion.receiptPath)
         && ReadCompletion(e.key, e.after, e.receiptsAfter) == Present(e.result.completion))
  }

  /** How the `try` statement of `switch_transaction` can end. */
  ghost predicate Ends(r: SwitchResult, before: Before, f: SwitchFaults, scope: Scope, seen: set<Selectors>,
                       final: HostState) {
    && !r.NotStarted?
    && final == FinalState(scope, f, r.Switched?) && seen == Trail(scope, f, r.Switched?)
    && (r.Switched? ==> ForwardSucceeds(scope.outgoing, f) && final == SwitchedState(scope))
    && (!r.Switched? ==>
         (ReportsRestored(r) <==>
           && (forall a :: !ActionRaises(a, before, f.restore))
           && final == before.state && ReadsBackClean(before, f.restore)))
    && (r.RestorationIncomplete? ==> r.errors != [])
    && (Faultless(before, f.restore) ==> r.Switched? || final == before.state)
    && (Faultless(before, f.restore) && ReadsBackClean(before, f.restore) ==> !r.RestorationIncomplete?)
  }

  lemma ForwardReachesTarget(scope: Scope, f: SwitchFaults)
    requires ForwardSucceeds(scope.outgoing, f)
    ensures ForwardState(scope, f) == SwitchedState(scope)
  {
    InstallVerdict(f.install);
    QuietWritesArrive(scope.entry.units, InstalledUnits(scope.rendered), f.install.writes);
  }

  lemma SwitchedEnds(r: SwitchResult, before: Before, f: SwitchFaults, scope: Scope, seen: set<Selectors>,
                     final: HostState)
    requires r.Switched? && ForwardSucceeds(scope.outgoing, f)
    requires final == ForwardState(scope, f) == SwitchedState(scope) && seen == ForwardTrail(scope, f)
    ensures Ends(r, before, f, scope, seen, final)
  {
  }

  lemma AbandonedEnds(r: SwitchResult, before: Before, f: SwitchFaults, scope: Scope, seen: set<Selectors>,
                      final: HostState)
    requires !r.NotStarted? && !r.Switched? && (r.RestorationIncomplete? ==> r.errors != [])
    requires before.state == scope.entry && final == RestoredState(ForwardState(scope, f), scope.entry, f.restore)
    requires seen == ForwardTrail(scope, f) + RestoreTrail(ForwardState(scope, f), scope.entry, f.restore)
    requires ReportsRestored(r) <==>
      (forall a :: !ActionRaises(a, before, f.restore)) && final == before.state && ReadsBackClean(before, f.restore)
    ensures Ends(r, before, f, scope, seen, final)
  {
    if Faultless(before, f.restore) { FaultlessUndoes(ForwardState(scope, f), before, f.restore); }
  }

  // ---------------------------------------------------------------- what a switch leaves in the ledger

  /** The receipts with this content that were not there before. */
  ghost function NewReceipts(receipt: Receipt, before: map<string, File>, after: map<string, File>): set<string> {
    set n | n in after && IsReceiptName(n) && n !in before && after[n] == ReceiptFile(receipt)
  }

  /** Exactly one such receipt is new, and the link of its kind names it. */
  ghost predicate OneNew(receipt: Receipt, before: map<string, File>, after: map<string, File>,
                         latest: map<string, string>) {
    && receipt.kind in latest
    && NewReceipts(receipt, before, after) == {latest[receipt.kind]}
  }

  predicate LinkMoved(kind: string, before: map<string, string>, after: map<string, string>) {
    kind in after && (kind !in before || after[kind] != before[kind])
  }

  /** The ledger between the start receipt and the end of a switch. */
  ghost predicate Concludes(r: SwitchResult, operation: string, attempt: string, target: Release, f: SwitchFaults,
                            forward: bool, begun: LedgerState, tried: LedgerState, after: LedgerState) {
    && (if forward then Writes(begun, tried, Receipt(operation, attempt, true, "", target), f.finalReceipt)
        else tried == begun)
    && (r.Switched? ==> after == tried && r.receipt == NewName(operation, f.finalReceipt, begun.files)
                        && CanPublish(operation, f.finalReceipt, begun.files) && forward)
    && (!r.Switched? ==>
         && Writes(tried, after, Receipt(operation + "-failed", attempt, false, "", target), f.failureReceipt)
         && (!r.FailureUnrecorded? ==> CanPublish(operation + "-failed", f.failureReceipt, tried.files)))
  }

  lemma KindsDiffer(operation: string)
    ensures operation != operation + "-started" && operation != operation + "-failed"
    ensures operation + "-started" != operation + "-failed"
  {
    assert |operation + "-started"| != |operation + "-failed"|;
  }

  /** What one write does to the receipts of one content. */
  lemma WriteAddsOne(before: LedgerState, after: LedgerState, receipt: Receipt, attempts: seq<Attempt>, other: Receipt)
    requires Writes(before, after, receipt, attempts) && KeepsReceipts(before.files, after.files)
    ensures NewReceipts(other, before.files, after.files) ==
      if other == receipt && LeavesReceipt(receipt.kind, attempts, before.files)
      then {NewName(receipt.kind, attempts, before.files)} else {}
  {
  }

  lemma NewInTwoSteps(receipt: Receipt, a: map<string, File>, b: map<string, File>, c: map<string, File>)
    requires KeepsReceipts(a, b) && KeepsReceipts(b, c)
    ensures NewReceipts(receipt, a, c) == NewReceipts(receipt, a, b) + NewReceipts(receipt, b, c)
  {
  }

  /** The three writes together: the start receipt, the success receipt if everything works up
      to it, and the failure receipt unless the switch succeeds. */
  lemma EvidenceOf(r: SwitchResult, operation: string, attempt: string, target: Release, f: SwitchFaults,
                   starts: bool, forward: bool,
                   before: LedgerState, begun: LedgerState, tried: LedgerState, after: LedgerState)
    requires MayWrite(before, begun, Receipt(operation + "-started", attempt, false, "", target), f.startReceipt,
                      starts)
    requires !r.NotStarted? <==> starts && CanPublish(operation + "-started", f.startReceipt, before.files)
    requires r.NotStarted? ==> after == begun
    requires !r.NotStarted? ==> Concludes(r, operation, attempt, target, f, forward, begun, tried, after)
    requires Consistent(before)
    ensures forall n :: n in after.files && IsReceiptName(n) && n !in before.files ==>
      || after.files[n] == ReceiptFile(Receipt(operation + "-started", attempt, false, "", target))
      || after.files[n] == ReceiptFile(Receipt(operation, attempt, true, "", target))
      || after.files[n] == ReceiptFile(Receipt(operation + "-failed", attempt, false, "", target))
    ensures !r.NotStarted? ==>
      OneNew(Receipt(operation + "-started", attempt, false, "", target), before.files, after.files, after.latest)
    ensures r.PriorStateRestored? || r.RestorationIncomplete? ==>
      OneNew(Receipt(operation + "-failed", attempt, false, "", target), before.files, after.files, after.latest)
    ensures r.Switched? ==>
      && NewReceipts(Receipt(operation, attempt, true, "", target), before.files, after.files) == {r.receipt}
      && operation in after.latest && after.latest[operation] == r.receipt
    ensures r.NotStarted? || r.Switched? ==>
      NewReceipts(Receipt(operation + "-failed", attempt, false, "", target), before.files, after.files) == {}
    ensures NewReceipts(Receipt(operation, attempt, true, "", target), before.files, after.files) != {} <==>
      !r.NotStarted? && forward && LeavesReceipt(operation, f.finalReceipt, begun.files)
    ensures !LinkMoved(operation, before.latest, after.latest) <==>
      r.NotStarted? || !forward || !MovesLatest(operation, f.finalReceipt, begun.files)
  {
    var started := Receipt(operation + "-started", attempt, false, "", target);
    var success := Receipt(operation, attempt, true, "", target);
    var failed := Receipt(operation + "-failed", attempt, false, "", target);
    KindsDiffer(operation);
    var middle := if r.NotStarted? then begun else tried;
    ThreeWrites(before, begun, middle, after, started, success, failed,
                f.startReceipt, f.finalReceipt, f.failureReceipt,
                starts, !r.NotStarted? && forward, !r.NotStarted? && !r.Switched?);
    PublishingShows(started.kind, f.startReceipt, before.files);
    PublishingShows(success.kind, f.finalReceipt, begun.files);
    PublishingShows(failed.kind, f.failureReceipt, middle.files);
  }

  ghost predicate MayWrite(before: LedgerState, after: LedgerState, receipt: Receipt, attempts: seq<Attempt>,
                           writes: bool) {
    if writes then Writes(before, after, receipt, attempts) else after == before
  }

  /** What a stage adds: the one name, or nothing. */
  ghost predicate AddedBy(added: set<string>, receipt: Receipt, attempts: seq<Attempt>, files: map<string, File>,
                          writes: bool) {
    added == if writes && LeavesReceipt(receipt.kind, attempts, files)
             then {NewName(receipt.kind, attempts, files)} else {}
  }

  /** Where the link of a kind ends up. */
  ghost predicate LinkEnds(kind: string, before: map<string, string>, after: map<string, string>,
                           attempts: seq<Attempt>, files: map<string, File>, writes: bool) {
    if writes && MovesLatest(kind, attempts, files)
    then kind in after && after[kind] == NewName(kind, attempts, files)
    else (kind in after <==> kind in before) && (kind in before ==> after[kind] == before[kind])
  }

  lemma OneWrite(a: LedgerState, b: LedgerState, receipt: Receipt, attempts: seq<Attempt>, writes: bool, other: Receipt)
    requires MayWrite(a, b, receipt, attempts, writes)
    ensures KeepsReceipts(a.files, b.files)
    ensures AddedBy(NewReceipts(other, a.files, b.files), receipt, attempts, a.files, writes && other == receipt)
    ensures LinkEnds(receipt.kind, a.latest, b.latest, attempts, a.files, writes)
  {
    if writes { WriteAddsOne(a, b, receipt, attempts, other); }
  }

  lemma ThreeWrites(a: LedgerState, b: LedgerState, c: LedgerState, d: LedgerState, x: Receipt, y: Receipt, z: Receipt,
                    xs: seq<Attempt>, ys: seq<Attempt>, zs: seq<Attempt>, first: bool, second: bool, third: bool)
    requires x.kind != y.kind && x.kind != z.kind && y.kind != z.kind
    requires MayWrite(a, b, x, xs, first) && MayWrite(b, c, y, ys, second) && MayWrite(c, d, z, zs, third)
    ensures AddedBy(NewReceipts(x, a.files, d.files), x, xs, a.files, first)
    ensures AddedBy(NewReceipts(y, a.files, d.files), y, ys, b.files, second)
    ensures AddedBy(NewReceipts(z, a.files, d.files), z, zs, c.files, third)
    ensures LinkEnds(x.kind, a.latest, d.latest, xs, a.files, first)
    ensures LinkEnds(y.kind, a.latest, d.latest, ys, b.files, second)
    ensures LinkEnds(z.kind, a.latest, d.latest, zs, c.files, third)
    ensures second && LeavesReceipt(y.kind, ys, b.files) ==> NewName(y.kind, ys, b.files) !in a.files
    ensures forall n :: n in d.files && IsReceiptName(n) && n !in a.files ==>
      d.files[n] == ReceiptFile(x) || d.files[n] == ReceiptFile(y) || d.files[n] == ReceiptFile(z)
  {
    AllOfOne(a, b, c, d, x, x, y, z, xs, ys, zs, first, second, third);
    AllOfOne(a, b, c, d, y, x, y, z, xs, ys, zs, first, second, third);
    AllOfOne(a, b, c, d, z, x, y, z, xs, ys, zs, first, second, third);
    OnlyThree(a, b, c, d, x, y, z, xs, ys, zs, first, second, third);
    LinksOfThree(a, b, c, d, x, y, z, xs, ys, zs, first, second, third);
  }

  lemma AllOfOne(a: LedgerState, b: LedgerState, c: LedgerState, d: LedgerState, w: Receipt,
                 x: Receipt, y: Receipt, z: Receipt,
                 xs: seq<Attempt>, ys: seq<Attempt>, zs: seq<Attempt>, first: bool, second: bool, third: bool)
    requires x.kind != y.kind && x.kind != z.kind && y.kind != z.kind
    requires MayWrite(a, b, x, xs, first) && MayWrite(b, c, y, ys, second) && MayWrite(c, d, z, zs, third)
    ensures var added := NewReceipts(w, a.files, d.files);
      && (w == x ==> AddedBy(added, x, xs, a.files, first))
      && (w == y ==> AddedBy(added, y, ys, b.files, second))
      && (w == z ==> AddedBy(added, z, zs, c.files, third))
  {
    OneWrite(a, b, x, xs, first, w);
    OneWrite(b, c, y, ys, second, w);
    OneWrite(c, d, z, zs, third, w);
    NewInTwoSteps(w, a.files, b.files, c.files);
    NewInTwoSteps(w, a.files, c.files, d.files);
  }

  lemma OnlyThree(a: LedgerState, b: LedgerState, c: LedgerState, d: LedgerState, x: Receipt, y: Receipt, z: Receipt,
                  xs: seq<Attempt>, ys: seq<Attempt>, zs: seq<Attempt>, first: bool, second: bool, third: bool)
    requires MayWrite(a, b, x, xs, first) && MayWrite(b, c, y, ys, second) && MayWrite(c, d, z, zs, third)
    ensures second && LeavesReceipt(y.kind, ys, b.files) ==> NewName(y.kind, ys, b.files) !in a.files
    ensures forall n :: n in d.files && IsReceiptName(n) && n !in a.files ==>
      d.files[n] == ReceiptFile(x) || d.files[n] == ReceiptFile(y) || d.files[n] == ReceiptFile(z)
  {
    OneWrite(a, b, x, xs, first, x);
    if second && LeavesReceipt(y.kind, ys, b.files) { assert IsReceiptName(NewName(y.kind, ys, b.files)); }
  }

  lemma LinksOfThree(a: LedgerState, b: LedgerState, c: LedgerState, d: LedgerState, x: Receipt, y: Receipt, z: Receipt,
                     xs: seq<Attempt>, ys: seq<Attempt>, zs: seq<Attempt>, first: bool, second: bool, third: bool)
    requires x.kind != y.kind && x.kind != z.kind && y.kind != z.kind
    requires MayWrite(a, b, x, xs, first) && MayWrite(b, c, y, ys, second) && MayWrite(c, d, z, zs, third)
    ensures LinkEnds(x.kind, a.latest, d.latest, xs, a.files, first)
    ensures LinkEnds(y.kind, a.latest, d.latest, ys, b.files, second)
    ensures LinkEnds(z.kind, a.latest, d.latest, zs, c.files, third)
  {
  }

  function Last<T>(s: seq<T>): T
    requires |s| > 0
  {
    s[|s| - 1]
  }

  lemma StatesAreScoped(scope: Scope, entry: HostState, states: seq<HostState>)
    requires Stays(scope, states, 0) && scope.entry == entry
    ensures Stays(scope, [entry] + states, 0)
  {
  }

  lemma IdleIsPossible(target: Release, o: Observed, rendered: PerUnit<Bytes>, f: SwitchFaults, entry: HostState)
    ensures PossibleTransaction(Transaction(target, o, rendered, f, [entry], NotStarted))
  {
  }

  /** A started transaction whose `try` statement ended in one of the ways it can. */
  lemma StartedIsPossible(target: Release, o: Observed, rendered: PerUnit<Bytes>, f: SwitchFaults,
                          entry: HostState, states: seq<HostState>, r: SwitchResult)
    requires CanStart(entry, target, o)
    requires Stays(ScopeOf(entry, target, o, rendered), states, 0)
    requires var all := [entry] + states;
      Ends(r, BeforeOf(entry, o), f, ScopeOf(entry, target, o, rendered), SelectorsIn(all), Last(all))
    ensures PossibleTransaction(Transaction(target, o, rendered, f, [entry] + states, r))
  {
    StatesAreScoped(ScopeOf(entry, target, o, rendered), entry, states);
  }
}
