/** Statements about whole runs: any interleaving of deploy, switch and rollback, each of
    which may be cut off at any intermediate state. */
module ReleaseRuns {
  import opened Common
  import opened ReceiptLedger
  import opened ReleaseHost
  import opened Deployment

  /** One transaction of a run and the state it reached: its last one when it `finished`,
      any of its states when the process died on the way. */
  datatype Step = Step(t: Transaction, stop: nat, finished: bool)

  ghost predicate ValidStep(s: Step) {
    && PossibleTransaction(s.t)
    && s.stop < |s.t.states|
    && (s.finished ==> s.stop == |s.t.states| - 1)
  }

  function EntryOf(s: Step): HostState
    requires |s.t.states| > 0
  {
    s.t.states[0]
  }

  function EndOf(s: Step): HostState
    requires s.stop < |s.t.states|
  {
    s.t.states[s.stop]
  }

  /** A run from an empty install; each step starts where the one before it stopped. */
  ghost predicate ValidRun(run: seq<Step>) {
    Linked(run) && forall i :: 0 <= i < |run| ==> ValidStep(run[i])
  }

  ghost predicate Linked(run: seq<Step>) {
    && (forall i :: 0 <= i < |run| ==> run[i].stop < |run[i].t.states|)
    && (|run| > 0 ==> EntryOf(run[0]) == EmptyInstall())
    && (forall i :: 0 < i < |run| ==> EntryOf(run[i]) == EndOf(run[i - 1]))
  }

  /** The step started, found the release verified, and recorded it in a selector: as its
      target or as the outgoing release. */
  ghost predicate RecordedBy(s: Step, r: Release)
    requires |s.t.states| > 0
  {
    && !s.t.result.NotStarted? && r in s.t.observed.verifies
    && (r == s.t.target || RecordedOutgoing(s.t.states[0], s.t.target, s.t.observed) == Some(r))
  }

  /** The selector is absent, or some step up to the `i`-th vouches for what it names. */
  ghost predicate Vouched(run: seq<Step>, i: nat, link: LinkState)
    requires Linked(run) && i < |run|
  {
    link.NoLink? || exists j :: 0 <= j <= i && RecordedBy(run[j], link.target)
  }

  /** What a step may do to the selectors at any of its states. */
  ghost predicate Moves(s: Step, k: nat)
    requires k < |s.t.states|
  {
    var entry, state := s.t.states[0], s.t.states[k];
    && (state.current == entry.current || (state.current == LinksTo(s.t.target) && RecordedBy(s, s.t.target)))
    && (state.previous == entry.previous || (state.previous.LinksTo? && RecordedBy(s, state.previous.target)))
  }

  lemma StepMoves(s: Step, k: nat)
    requires ValidStep(s) && k < |s.t.states|
    ensures Moves(s, k)
  {
    var t := s.t;
    if !t.result.NotStarted? {
      var scope := ScopeOf(t.states[0], t.target, t.observed, t.rendered);
      assert Within(scope, t.states[k]);
    }
  }

  ghost predicate Moving(run: seq<Step>) {
    Linked(run) && forall i, k :: 0 <= i < |run| && 0 <= k < |run[i].t.states| ==> Moves(run[i], k)
  }

  lemma RunsMove(run: seq<Step>)
    requires ValidRun(run)
    ensures Moving(run)
  {
    forall i, k | 0 <= i < |run| && 0 <= k < |run[i].t.states| ensures Moves(run[i], k) {
      StepMoves(run[i], k);
    }
  }

  lemma {:induction false} MovesAreVouched(run: seq<Step>, i: nat, k: nat)
    requires Moving(run) && i < |run| && k < |run[i].t.states|
    ensures Vouched(run, i, run[i].t.states[k].current) && Vouched(run, i, run[i].t.states[k].previous)
    decreases i
  {
    assert Moves(run[i], k);
    if i > 0 {
      MovesAreVouched(run, i - 1, run[i - 1].stop);
      assert EntryOf(run[i]) == EndOf(run[i - 1]);
    }
  }

  /** At every state of every step - so at every point where the process could die - each
      selector is absent or names a release that verified in a step that recorded it. */
  lemma SelectorsAlwaysVerified(run: seq<Step>, i: nat, k: nat)
    requires ValidRun(run) && i < |run| && k < |run[i].t.states|
    ensures Vouched(run, i, run[i].t.states[k].current) && Vouched(run, i, run[i].t.states[k].previous)
  {
    RunsMove(run);
    MovesAreVouched(run, i, k);
  }

  lemma {:induction false} CurrentStays(run: seq<Step>, j: nat, i: nat, k: nat)
    requires Moving(run) && j < i < |run| && k < |run[i].t.states| && EndOf(run[j]).current.LinksTo?
    ensures run[i].t.states[k].current.LinksTo?
    decreases i
  {
    assert Moves(run[i], k) && EntryOf(run[i]) == EndOf(run[i - 1]);
    if i > j + 1 { CurrentStays(run, j, i - 1, run[i - 1].stop); }
  }

  /** Once one switch has finished successfully, no later state is without `current`. */
  lemma CurrentNeverVanishes(run: seq<Step>, j: nat, i: nat, k: nat)
    requires ValidRun(run) && j < i < |run| && k < |run[i].t.states|
    requires run[j].finished && run[j].t.result.Switched?
    ensures run[i].t.states[k].current.LinksTo?
  {
    RunsMove(run);
    assert ValidStep(run[j]);
    CurrentStays(run, j, i, k);
  }

  // ------------------------------------------------------- rollback and `previous`

  predicate Distinct(s: HostState) { Differ(SelectorsOf(s)) }

  predicate Differ(p: Selectors) {
    p.previous.LinksTo? ==> p.previous != p.current
  }

  /** A successful switch leaves both selectors on the same release exactly when it goes
      to the recorded previous release without recording the outgoing one. */
  lemma SwitchKeepsDistinct(t: Transaction)
    requires PossibleTransaction(t) && t.result.Switched?
    ensures Distinct(Last(t.states)) <==>
      !(RecordedOutgoing(t.states[0], t.target, t.observed).None? && t.states[0].previous == LinksTo(t.target))
  {
  }

  /** Every step ran to its end, was not left half restored, and what it moved away from
      was managed. */
  predicate Clean(s: Step) {
    && s.finished && |s.t.states| > 0
    && (s.t.result.NotStarted? || s.t.result.PriorStateRestored? || s.t.result.Switched?)
    && (s.t.result.Switched? ==>
         var out := OutgoingRelease(s.t.states[0], s.t.observed);
         out.Some? ==> out.value in s.t.observed.verifies)
  }

  /** Different selectors, and no recorded previous release before there is a current one. */
  predicate Sane(s: HostState) {
    Distinct(s) && (s.current.NoLink? ==> s.previous.NoLink?)
  }

  ghost predicate KeepsSane(s: Step)
    requires s.stop < |s.t.states|
  {
    Sane(EntryOf(s)) ==> Sane(EndOf(s))
  }

  lemma CleanStepsKeepSane(s: Step)
    requires ValidStep(s) && Clean(s)
    ensures KeepsSane(s)
  {
    if s.t.result.Switched? { SwitchKeepsDistinct(s.t); }
  }

  lemma {:induction false} SaneAllAlong(run: seq<Step>, i: nat)
    requires Linked(run) && i < |run| && forall j :: 0 <= j < |run| ==> KeepsSane(run[j])
    ensures Sane(EndOf(run[i]))
    decreases i
  {
    assert KeepsSane(run[i]);
    if i > 0 { SaneAllAlong(run, i - 1); }
  }

  lemma DistinctOverCleanRuns(run: seq<Step>, i: nat)
    requires ValidRun(run) && i < |run| && forall j :: 0 <= j < |run| ==> Clean(run[j])
    ensures Distinct(EndOf(run[i]))
    ensures EndOf(run[i]).current.NoLink? ==> EndOf(run[i]).previous.NoLink?
  {
    forall j | 0 <= j < |run| ensures KeepsSane(run[j]) { CleanStepsKeepSane(run[j]); }
    SaneAllAlong(run, i);
  }

  // ------------------------------------------------------- passing through equal selectors

  /** How a transaction comes to show equal selectors: the outgoing release is recorded
      before `current` moves; or the target is the recorded previous release and stays
      recorded; or a restoration puts that back but not `current`. */
  predicate Overlaps(scope: Scope, f: SwitchFaults, switched: bool) {
    && InstallSucceeds(f.install)
    && (|| (scope.outgoing.Some? && scope.entry.current.LinksTo? && f.setPrevious.TakesEffect())
        || (scope.outgoing.None? && scope.entry.previous == LinksTo(scope.target) && f.setCurrent.TakesEffect())
        || (&& !switched && scope.outgoing.Some? && scope.entry.previous == LinksTo(scope.target)
            && f.setPrevious.Done? && f.setCurrent.TakesEffect()
            && !f.restore.current.TakesEffect() && f.restore.previous.TakesEffect()))
  }

  lemma TrailOverlaps(entry: HostState, target: Release, o: Observed, rendered: PerUnit<Bytes>, f: SwitchFaults,
                      switched: bool)
    requires Distinct(entry)
    ensures var scope := ScopeOf(entry, target, o, rendered);
      (exists p :: p in Trail(scope, f, switched) && !Differ(p)) <==> Overlaps(scope, f, switched)
  {
    var scope := ScopeOf(entry, target, o, rendered);
    var one, two := SelectorsOf(AfterPrevious(scope, f)), SelectorsOf(AfterSelectors(scope, f));
    var last := ForwardState(scope, f);
    var current := f.restore.current.Apply(last.current, entry.current);
    var previous := f.restore.previous.Apply(last.previous, entry.previous);
    var three, four := Selectors(current, last.previous), Selectors(current, previous);
    assert SelectorsOf(last) == if InstallSucceeds(f.install) then two else SelectorsOf(entry);
    assert InstallSucceeds(f.install) ==> one in Trail(scope, f, switched) && two in Trail(scope, f, switched);
    assert !switched ==> three in Trail(scope, f, switched) && four in Trail(scope, f, switched);
    assert forall p :: p in Trail(scope, f, switched) ==>
      p == SelectorsOf(entry) || p == one || p == two || p == three || p == four;
  }

  /** From different selectors, a transaction passes through equal ones exactly then. */
  lemma OverlapsExactly(t: Transaction)
    requires PossibleTransaction(t) && !t.result.NotStarted? && Distinct(t.states[0])
    ensures (exists k :: 0 <= k < |t.states| && !Distinct(t.states[k])) <==>
      Overlaps(ScopeOf(t.states[0], t.target, t.observed, t.rendered), t.faults, t.result.Switched?)
  {
    TrailOverlaps(t.states[0], t.target, t.observed, t.rendered, t.faults, t.result.Switched?);
    var trail := SelectorsIn(t.states);
    if p :| p in trail && !Differ(p) {
      var k :| 0 <= k < |t.states| && SelectorsOf(t.states[k]) == p;
      assert !Distinct(t.states[k]);
    }
    if k :| 0 <= k < |t.states| && !Distinct(t.states[k]) {
      assert SelectorsOf(t.states[k]) in trail;
    }
  }

  /** For a success: exactly if it leaves a managed selected release, or goes to the recorded
      previous one without recording the outgoing one. */
  lemma SwitchOverlapsExactly(t: Transaction)
    requires PossibleTransaction(t) && t.result.Switched? && Distinct(t.states[0])
    ensures var out := RecordedOutgoing(t.states[0], t.target, t.observed);
      (exists k :: 0 <= k < |t.states| && !Distinct(t.states[k])) <==>
        if out.Some? then t.states[0].current.LinksTo? else t.states[0].previous == LinksTo(t.target)
  {
    OverlapsExactly(t);
  }

  /** The price of a crash: every successful switch away from a managed release passes
      through a state in which both selectors name it. */
  lemma EverySwitchOverlaps(t: Transaction)
    requires PossibleTransaction(t) && t.result.Switched?
    requires t.states[0].current.LinksTo? && t.states[0].current.target in t.observed.verifies
    requires t.states[0].current != LinksTo(t.target)
    ensures exists k :: 0 <= k < |t.states| && t.states[k].previous == t.states[k].current == t.states[0].current
  {
    var scope := ScopeOf(t.states[0], t.target, t.observed, t.rendered);
    var both := SelectorsOf(AfterPrevious(scope, t.faults));
    assert both in SelectorsIn(t.states);
    var k :| 0 <= k < |t.states| && SelectorsOf(t.states[k]) == both;
  }

  /** Going to the release that is already selected does not touch `previous`. */
  lemma ReswitchKeepsPrevious(t: Transaction, k: nat)
    requires PossibleTransaction(t) && t.states[0].current == LinksTo(t.target) && k < |t.states|
    ensures t.states[k].previous == t.states[0].previous && t.states[k].current == t.states[0].current
  {
    assert Within(ScopeOf(t.states[0], t.target, t.observed, t.rendered), t.states[k]);
  }

  /** A rollback to the recorded previous release. */
  ghost predicate RollsBack(t: Transaction) {
    PossibleTransaction(t) && t.result.Switched? && t.states[0].previous == LinksTo(t.target)
  }

  /** Two successful rollbacks in a row give back the original pair of selectors. */
  lemma RollbackTwice(first: Transaction, second: Transaction)
    requires RollsBack(first) && RollsBack(second) && second.states[0] == Last(first.states)
    requires first.states[0].current.LinksTo? && Distinct(first.states[0])
    requires first.states[0].current.target in first.observed.verifies
    requires first.target in second.observed.verifies
    ensures Last(first.states).current == first.states[0].previous
    ensures Last(first.states).previous == first.states[0].current
    ensures Last(second.states).current == first.states[0].current
    ensures Last(second.states).previous == first.states[0].previous
  {
  }

  // ------------------------------------------------------- the completion ledger

  datatype Evidence = Evidence(completions: Completions, receipts: map<string, File>)

  /** A deploy, or any other command: those only add receipts. */
  datatype Event =
    | Deploys(e: DeployEvent, finished: bool)
    | Others(before: Evidence, after: Evidence)

  function EvidenceBefore(e: Event): Evidence {
    match e
    case Deploys(d, _) => Evidence(d.before, d.receiptsBefore)
    case Others(before, _) => before
  }

  ghost predicate ValidEvent(e: Event) {
    match e
    case Deploys(d, _) => PossibleDeploy(d)
    case Others(before, after) =>
      before.completions == after.completions && KeepsReceipts(before.receipts, after.receipts)
  }

  /** What a later command may find: what the event left, or - if a deploy was cut off -
      any of the states it can expose. */
  ghost predicate Leaves(e: Event, found: Evidence) {
    match e
    case Deploys(d, finished) =>
      if finished then found == Evidence(d.after, d.receiptsAfter)
      else
        && Grows(d.before, found.completions) && OnlyTouches(d.before, found.completions, d.key)
        && KeepsReceipts(d.receiptsBefore, found.receipts) && (Proper(d.before) ==> Proper(found.completions))
        && (!(d.switch.Some? && d.switch.value.result.Switched?) ==> found.completions == d.before)
    case Others(_, after) => found == after
  }

  ghost predicate ValidHistory(h: seq<Event>) {
    && (forall i :: 0 <= i < |h| ==> ValidEvent(h[i]))
    && (forall i :: 0 < i < |h| ==> Leaves(h[i - 1], EvidenceBefore(h[i])))
  }

  lemma LookupIsStable(key: Key, before: Completions, receipts: map<string, File>,
                       after: Completions, receiptsAfter: map<string, File>)
    requires ReadCompletion(key, before, receipts).Present?
    requires IsReceiptName(ReadCompletion(key, before, receipts).completion.receiptPath)
    requires Grows(before, after) && KeepsReceipts(receipts, receiptsAfter)
    ensures ReadCompletion(key, after, receiptsAfter) == ReadCompletion(key, before, receipts)
  {
  }

  /** A history of a ledger that was once proper; the empty one is. */
  lemma {:induction false} LedgerStaysProper(h: seq<Event>, i: nat)
    requires ValidHistory(h) && i < |h| && Proper(EvidenceBefore(h[0]).completions)
    ensures Proper(EvidenceBefore(h[i]).completions)
    decreases i
  {
    if i > 0 {
      LedgerStaysProper(h, i - 1);
      assert Leaves(h[i - 1], EvidenceBefore(h[i]));
    }
  }

  lemma EmptyLedgerIsProper()
    ensures Proper(Completions(map[], map[]))
  {
  }

  ghost predicate Completed(e: Evidence, key: Key) {
    ReadCompletion(key, e.completions, e.receipts).Present?
  }

  /** Once the completion of a key can be read - whether the deploy that wrote it returned,
      raised or was cut off - it reads the same for ever. */
  lemma {:induction false} CompletionPersists(h: seq<Event>, key: Key, i: nat, j: nat)
    requires ValidHistory(h) && i <= j < |h| && Proper(EvidenceBefore(h[0]).completions)
    requires Completed(EvidenceBefore(h[i]), key)
    ensures ReadCompletion(key, EvidenceBefore(h[j]).completions, EvidenceBefore(h[j]).receipts)
      == ReadCompletion(key, EvidenceBefore(h[i]).completions, EvidenceBefore(h[i]).receipts)
    decreases j
  {
    if i < j {
      CompletionPersists(h, key, i, j - 1);
      LedgerStaysProper(h, j - 1);
      var before, found := EvidenceBefore(h[j - 1]), EvidenceBefore(h[j]);
      assert Leaves(h[j - 1], found);
      LookupIsStable(key, before.completions, before.receipts, found.completions, found.receipts);
    }
  }

  /** Once a deployment key is completed, no deploy of it switches anything: it replays that
      completion or raises. */
  lemma CompletedKeysNeverSwitch(h: seq<Event>, i: nat, j: nat)
    requires ValidHistory(h) && i <= j < |h| && Proper(EvidenceBefore(h[0]).completions)
    requires h[j].Deploys? && Completed(EvidenceBefore(h[i]), h[j].e.key)
    ensures h[j].e.switch.None? && h[j].e.after == h[j].e.before
    ensures h[j].e.result.Replayed? || h[j].e.result.Refused? || h[j].e.result.ReplayRefused?
    ensures h[j].e.result.Replayed? ==> var found := EvidenceBefore(h[i]);
      ReadCompletion(h[j].e.key, found.completions, found.receipts) == Present(h[j].e.result.completion)
  {
    CompletionPersists(h, h[j].e.key, i, j);
  }

  /** Only a deploy that switched completes a key: what can be read as completed was not there
      at first, so some earlier deploy of that very key ended its switch successfully. */
  lemma {:induction false} CompletionMeansSwitched(h: seq<Event>, key: Key, j: nat) returns (i: nat)
    requires ValidHistory(h) && j < |h| && key !in EvidenceBefore(h[0]).completions.records
    requires Completed(EvidenceBefore(h[j]), key)
    ensures i < j && h[i].Deploys? && h[i].e.key == key
    ensures h[i].e.switch.Some? && h[i].e.switch.value.result.Switched?
    decreases j
  {
    i := RecordMeansSwitched(h, key, j);
  }

  lemma NewRecordMeansSwitched(e: Event, found: Evidence, key: Key)
    requires ValidEvent(e) && Leaves(e, found)
    requires key !in EvidenceBefore(e).completions.records && key in found.completions.records
    ensures e.Deploys? && e.e.key == key && e.e.switch.Some? && e.e.switch.value.result.Switched?
  {
    var touched := if e.Deploys? then {e.e.key} else {};
    assert EvidenceBefore(e).completions.records - touched == found.completions.records - touched;
    assert key in found.completions.records - touched <==> key !in touched;
    assert key !in EvidenceBefore(e).completions.records - touched;
  }

  lemma {:induction false} RecordMeansSwitched(h: seq<Event>, key: Key, j: nat) returns (i: nat)
    requires ValidHistory(h) && j < |h| && key !in EvidenceBefore(h[0]).completions.records
    requires key in EvidenceBefore(h[j]).completions.records
    ensures i < j && h[i].Deploys? && h[i].e.key == key
    ensures h[i].e.switch.Some? && h[i].e.switch.value.result.Switched?
    decreases j
  {
    var e, found := h[j - 1], EvidenceBefore(h[j]);
    assert Leaves(e, found);
    if key in EvidenceBefore(e).completions.records {
      i := RecordMeansSwitched(h, key, j - 1);
    } else {
      i := j - 1;
      NewRecordMeansSwitched(e, found, key);
    }
  }

  /** Right after a successful switch, with everything loaded and a passing postflight, the host
      is what a deploy of the same target replays. */
  lemma SwitchedIsReplayed(t: Transaction, d: DeployInputs)
    requires PossibleTransaction(t) && t.result.Switched? && t.target == d.target && t.rendered == d.rendered
    ensures RunsAsCompleted(Last(t.states), d) <==> d.loaded && d.replayPostflight
  {
    RunsAsSwitched(Last(t.states), d, ScopeOf(t.states[0], t.target, t.observed, t.rendered));
  }

  /** A deploy that returned has completed its key for whatever comes next. */
  lemma DeployCompletes(h: seq<Event>, i: nat)
    requires ValidHistory(h) && i + 1 < |h|
    requires h[i].Deploys? && h[i].finished && h[i].e.result.Deployed?
    ensures Completed(EvidenceBefore(h[i + 1]), h[i].e.key)
  {
    assert Leaves(h[i], EvidenceBefore(h[i + 1]));
  }

  /** Nothing was done, or all that was done is undone. */
  predicate Untouched(t: Transaction)
    requires |t.states| > 0
  {
    var scope := ScopeOf(t.states[0], t.target, t.observed, t.rendered);
    if t.result.NotStarted? then true
    else if t.result.Switched? then t.states[0] == SwitchedState(scope)
    else Undoes(ForwardState(scope, t.faults), t.states[0], t.faults.restore)
  }

  /** A deploy that raises leaves the host as it was exactly under that condition, whatever
      it reports; if it lost its evidence, it has switched. */
  lemma FailedDeployLeaves(e: DeployEvent)
    requires PossibleDeploy(e) && e.switch.Some? && !e.result.Deployed?
    ensures var t := e.switch.value;
      && (Last(t.states) == t.states[0] <==> Untouched(t))
      && (e.result.EvidenceLost? <==> t.result.Switched?)
      && (e.result.EvidenceLost? ==>
           Last(t.states) == SwitchedState(ScopeOf(t.states[0], t.target, t.observed, t.rendered)))
      && (ReportsRestored(t.result) ==> Last(t.states) == t.states[0])
  {
    var t := e.switch.value;
    var scope := ScopeOf(t.states[0], t.target, t.observed, t.rendered);
    RestoredExactly(ForwardState(scope, t.faults), t.states[0], t.faults.restore);
  }

  /** A key whose completion write died between sidecar and rename can never be deployed
      again: every later deploy of it raises. */
  lemma {:induction false} WedgedForever(h: seq<Event>, key: Key, i: nat, j: nat)
    requires ValidHistory(h) && i <= j < |h| && Wedged(EvidenceBefore(h[i]).completions, key)
    ensures Wedged(EvidenceBefore(h[j]).completions, key)
    ensures h[j].Deploys? && h[j].e.key == key ==> h[j].e.result.Refused? && h[j].e.switch.None?
    decreases j
  {
    if i < j {
      WedgedForever(h, key, i, j - 1);
      WedgedStays(h[j - 1], EvidenceBefore(h[j]), key);
    }
    if h[j].Deploys? && h[j].e.key == key { WedgedIsRefused(h[j].e); }
  }

  lemma WedgedStays(e: Event, found: Evidence, key: Key)
    requires ValidEvent(e) && Leaves(e, found) && Wedged(EvidenceBefore(e).completions, key)
    ensures Wedged(found.completions, key)
  {
    var before, touched := EvidenceBefore(e).completions, if e.Deploys? then {e.e.key} else {};
    assert before.sidecars - touched == found.completions.sidecars - touched;
    assert before.records - touched == found.completions.records - touched;
    assert key in before.sidecars - touched <==> key !in touched;
    assert key !in before.records - touched;
    if e.Deploys? && e.e.key == key { WedgedIsRefused(e.e); }
  }

  lemma WedgedIsRefused(e: DeployEvent)
    requires PossibleDeploy(e) && Wedged(e.before, e.key)
    ensures e.result.Refused? && e.switch.None?
  {
  }

  // ------------------------------------------------------- instances

  const EVERYWHERE_DONE: PerUnit<Outcome> := PerUnit(Done, Done, Done, Done)

  const RESTORES: RestoreFaults :=
    RestoreFaults(Done, Done, EVERYWHERE_DONE, false, Done, Done, false, false, Readback(true, true, true, true))

  function Published(): Attempts {
    seq(ATTEMPTS, _ => Attempt("", Created, Created, Done, true, Done))
  }

  /** Nothing fails. */
  function NoFaults(): SwitchFaults {
    var effects: PerUnit<Effect> := PerUnit(Done, Done, Done, Done);
    SwitchFaults(
      Published(), InstallFaults(true, true, effects, false, PerUnit(true, true, true, true), EVERYWHERE_DONE),
      Done, Done, Done, Done, true, true, true, true, true, Published(), RESTORES, Published())
  }

  function Observes(verifies: set<Release>): Observed {
    Observed(verifies, true, None, true, true, true)
  }

  const BARE_UNITS: Units := PerUnit(Missing, Missing, Missing, Missing)
  const NO_BYTES: PerUnit<Bytes> := PerUnit([], [], [], [])

  /** A transaction without faults, seen at its start and at its end. */
  function Flawless(entry: HostState, target: Release, verifies: set<Release>): Transaction {
    var o := Observes(verifies);
    Transaction(target, o, NO_BYTES, NoFaults(),
                [entry, SwitchedState(ScopeOf(entry, target, o, NO_BYTES))], Switched("receipt"))
  }

  /** Without an outgoing release to record, those two are all the selectors it shows. */
  lemma FlawlessIsPossible(entry: HostState, target: Release, verifies: set<Release>)
    requires entry.units == BARE_UNITS && target in verifies
    requires RecordedOutgoing(entry, target, Observes(verifies)).None?
    ensures PossibleTransaction(Flawless(entry, target, verifies))
  {
    var t := Flawless(entry, target, verifies);
    var scope := ScopeOf(entry, target, t.observed, NO_BYTES);
    RenderedInScope(NO_BYTES);
    ForwardReachesTarget(scope, t.faults);
    FlawlessTrail(scope, t.faults, t.states);
  }

  lemma FlawlessTrail(scope: Scope, f: SwitchFaults, states: seq<HostState>)
    requires scope.outgoing.None? && f == NoFaults() && states == [scope.entry, SwitchedState(scope)]
    ensures SelectorsIn(states) == Trail(scope, f, true)
  {
    assert states == ([] + [scope.entry]) + [SwitchedState(scope)];
    SelectorsGrow([], scope.entry);
    SelectorsGrow([] + [scope.entry], SwitchedState(scope));
    assert SelectorsOf(AfterPrevious(scope, f)) == SelectorsOf(scope.entry);
    assert SelectorsOf(AfterSelectors(scope, f)) == SelectorsOf(SwitchedState(scope));
  }

  /** From `B`, which no longer verifies, with `A` recorded: a flawless rollback to `A` leaves
      both selectors on `A`. */
  lemma PreviousMayEqualCurrent(t: Transaction)
    requires t == Flawless(HostState(LinksTo("B"), LinksTo("A"), BARE_UNITS, TimerState(true, true)), "A", {"A"})
    ensures PossibleTransaction(t) && Distinct(t.states[0])
    ensures Last(t.states).current == Last(t.states).previous == LinksTo("A")
  {
    assert "B" !in {"A"} by { assert "B"[0] != "A"[0]; }
    assert t.states[0].current != t.states[0].previous by { assert "B"[0] != "A"[0]; }
    FlawlessIsPossible(t.states[0], "A", {"A"});
  }

  /** A first deploy whose receipt cannot be written: it raises, and it has switched. */
  lemma RaisingDeployMayHaveSwitched(t: Transaction, e: DeployEvent)
    requires t == Flawless(EmptyInstall(), "A", {"A"})
    requires var none := Completions(map[], map[]);
      e == DeployEvent(KeyOf("head", "config"), none, map[], none, map[], Some(t), EvidenceLost)
    ensures PossibleDeploy(e) && t.states[0].current.NoLink? && Last(t.states).current == LinksTo("A")
  {
    FlawlessIsPossible(EmptyInstall(), "A", {"A"});
  }
}
