# Leitstand: verified models of its release transaction, scheduler and encodings

This project models, in Dafny, the parts of Leitstand whose behaviour is hard to see from any one
function, and proves what they promise:

* **The release transaction** (`ReceiptLedger`, `ReleaseHost`, `Deployment`, `ReleaseRuns`). A host with two
  selectors, four unit files and a timer; an evidence directory with receipts, sidecars and
  completions. Every effect ends in one of several ways - done, silently not done, raised before or
  after it took effect - and those endings are inputs, so each theorem holds for every pattern of
  failures. Every intermediate state is appended to a ghost trace, so a theorem about all states of
  a trace is a theorem about all points at which the process can die. Answers of systemd, HTTP and
  git are arbitrary inputs.
* **The Now corridor** (`BureauProjection`, `NowCorridor`, `CorridorOrder`, `CorridorTitles`): the projection of
  repository balls, and the bounded greedy allocator over execution domains. The loops are proved against a specification
  that knows the balls only as sets.
* **The digest encodings** (`ByteCodec`, `DigestStream`, `PathText`, `SnapshotTree`): decoders proved inverse
  to both hashed streams. The hash object is represented by the bytes fed to it.
* **The release tree** (`LinkFollowing`, `ReleaseTree`, `ReleaseBuild`, `ReleaseMoves`, `ReleaseListing`): the walk
  that feeds the digest, with symbolic links followed through the links on their way; why a digest
  survives sealing; exactly which trees can be moved; and what a digest says about a tree.
* **The re-indexing sanitizer** (`Insights`, `InsightsMeaning`, `SiteLinks`), **script-safe JSON**
  (`NavigationJson`), **map identities** (`MermaidNodes`), **the batched metrics scan and recount** (`Metrics`),
  and **calendar dates as strings** (`Lifecycle`, `CalendarForm`). `Orders`, `JsText` and `Common` hold what they share.

Verify with `dafny verify dfyconfig.toml`.

## Where the code differs from what one would expect

Each of these is stated by a lemma with its exact condition; the model follows the code.

* **`previous` can equal `current`.** A switch away from a managed release moves `previous` first, so
  every such switch passes through a state where both selectors name the outgoing release
  (`EverySwitchOverlaps`); a crash exposes it. `OverlapsExactly` says for every pattern of failures when
  a transaction passes through equal selectors. After a success they are equal exactly when the
  target was the recorded previous release and the outgoing one was not recorded
  (`SwitchKeepsDistinct`, with an instance in `PreviousMayEqualCurrent`).
* **A deploy that raises may have switched.** docs/runbooks/local-release-runtime.md:110 has any failed
  write restore the prior state. That covers the writes inside `switch_transaction`; when the later
  `deploy` receipt or the completion cannot be written, the switch stays
  (`RaisingDeployMayHaveSwitched`). `FailedDeployLeaves` says exactly when a raising deploy leaves the host
  as it was. The same paragraph speaks of two unit files; the code couples four.
* **A failed switch can leave a receipt of success.** When the final receipt's rename has taken effect and
  the directory sync or the `latest` link raises, the switch is rolled back but the receipt stays
  visible. `Switch` says exactly when a success receipt is left and when its link moves;
  `ShownButRaised` says when a write that raises has shown its receipt.
* **A completion write that dies between sidecar and rename blocks its key for good**: `_read_completion`
  raises on a lone sidecar, and `_write_completion` reads before it writes. It happens exactly under
  `WriteWedges` (`WriteCompletion`), and lasts (`WedgedForever`).
* **A built release need not verify.** An absolute symlink into the temporary build directory passes
  the digest there and fails under the final name (`AbsoluteLinkBreaks`); so may a link that leaves the
  tree only through another link (`LinkThroughLinkLeaves`). Once the build has its digest, it is found
  again if and only if every link leads inside the tree from its final place and the walk meets the
  same listing (`BuildThenVerify`). The trees for which that holds at any place are exactly those whose
  links, followed through all links on their way, never leave the tree (`WalkableEverywhere`).
* **A stale `metadata.unknown_count` is never cleared**, so the reported counts add up exactly when
  some repository is unknown or the file brings no count of its own (`BuildSnapshot`, `CountsAddUp`, with
  an instance in `StaleCountSpoils`).
* **Only the fallback title depends on the order of the balls**, and only if two different titles are on
  offer for an item without a title of its own: otherwise everything `Build` returns is the same for
  every order (`TitleForgetsOrder`, `CorridorForgetsOrder`, with an instance in `TitleRemembersOrder`).

## Model

| member | source | states |
|---|---|---|
| ReceiptLedger.Ledger.WriteCreateOnly | scripts/leitstand-release.py:493-503 | an exclusive create never replaces a file; a failed write leaves nothing; at each moment, the half-written file included, every visible receipt still has its sidecar |
| ReceiptLedger.Ledger.Stage | scripts/leitstand-release.py:551-563 | temporary body first, sidecar under the final name second; a collision undoes the first; no receipt becomes visible |
| ReceiptLedger.Ledger.Unlink | scripts/leitstand-release.py:561-563 | removing a file that is no visible receipt's body or sidecar keeps every state sound |
| ReceiptLedger.Ledger.Rename | scripts/leitstand-release.py:564 | the receipt becomes visible in one step and only with its matching sidecar in place |
| ReceiptLedger.Ledger.PointLatest | scripts/leitstand-release.py:566-567 | `latest-<kind>` only ever names a visible receipt of that kind |
| ReceiptLedger.Ledger.Publish | scripts/leitstand-release.py:564-567 | after staging: exactly this receipt becomes visible, exactly if its rename takes effect, and the link follows exactly if it is reached and replaced, raised or not |
| ReceiptLedger.Ledger.TryAttempt | scripts/leitstand-release.py:549-568 | one pass collides, stops or publishes, each under its exact condition; a collision leaves the directory as it was |
| ReceiptLedger.Ledger.WriteReceipt | scripts/leitstand-release.py:530-571 | for all endings of all effects in up to 8 attempts: every state has sidecars for all visible receipts, loses and changes no earlier receipt, and adds at most this one; it returns exactly when some attempt is reached past collisions only and runs to its end; which receipt it leaves and whether its link moves, raised or not |
| ReceiptLedger.ShownButRaised | scripts/leitstand-release.py:564-568 | a write that shows its receipt raises exactly if the rename, the directory sync or the link raises after the rename took effect |
| ReceiptLedger.FreshNamesAreScratch | scripts/leitstand-release.py:545-550 | a name not yet used has a temporary and a sidecar that belong to no visible receipt |
| ReceiptLedger.RenameIsSound | scripts/leitstand-release.py:533-538 | renaming a staged body into place keeps the ledger invariant |
| ReceiptLedger.ScratchIsSound | scripts/leitstand-release.py:551-563 | changing a file that is neither a receipt nor a receipt's sidecar keeps the ledger invariant |
| ReleaseHost.Host.SetCurrent | scripts/leitstand-release.py:574-597 | moving or restoring `current` is one step, to its entry value or the target; nothing else changes |
| ReleaseHost.Host.SetPrevious | scripts/leitstand-release.py:574-597 | moving or restoring `previous` is one step, to its entry value or the outgoing release |
| ReleaseHost.Host.SetUnit | scripts/leitstand-release.py:514-527 | replacing one unit file is one step, to its entry state or the rendered bytes; the other units stay |
| ReleaseHost.Host.MoveUnits | scripts/leitstand-release.py:2269-2284 | one unit after the other until one raises, whatever each of them does; the selectors shown do not change |
| ReleaseHost.Host.RestoreUnits | scripts/leitstand-release.py:2269-2276 | raises exactly if some unit raises; if all four work, existence, bytes and mode are those of the snapshot |
| ReleaseHost.Host.WriteUnits | scripts/leitstand-release.py:2283-2284 | the writes raise exactly if one of them does; every unit holds its entry state or the rendered bytes |
| ReleaseHost.Host.CheckUnits | scripts/leitstand-release.py:2286 | fails exactly if some unit is not the rendered one, owner-only, or is not loaded |
| ReleaseHost.Host.WriteAndCheck | scripts/leitstand-release.py:2282-2286 | the `try` statement raises exactly unless every write, the reload and every check work |
| ReleaseHost.UnitsMovedExactly | scripts/leitstand-release.py:2269-2276 | all units are as wanted exactly if each was already, or is reached before any raise and its effect takes place |
| ReleaseHost.Host.InstallUnits | scripts/leitstand-release.py:2279-2298 | raises exactly unless every render, write, reload and check works; then all four units are installed owner-only; after a raise with working restores the units are the old ones; no selector moves |
| ReleaseHost.Host.RestoreTimerState | scripts/leitstand-release.py:2527-2539 | both flags are the earlier ones if both commands work; a command that fails quietly does not raise |
| ReleaseHost.Host.Perform | scripts/leitstand-release.py:2771-2784 | each restore action changes only its own part of the host and raises exactly when its command does |
| ReleaseHost.Host.RunActions | scripts/leitstand-release.py:2785-2789 | every action is tried; no error is noted exactly if none raises; the state and the pairs of selectors shown are those of the actions that took effect, `current` first |
| ReleaseHost.Host.ReadBack | scripts/leitstand-release.py:2790-2838 | reports nothing exactly if the whole state equals the one at entry and the read-back is clean |
| ReleaseHost.Host.CompareHost | scripts/leitstand-release.py:2800-2812 | each of the five mismatches is noted exactly if that part differs from its state at entry |
| ReleaseHost.Host.CompareServices | scripts/leitstand-release.py:2813-2836 | each complaint about a service is noted exactly if the service was up before and is not as it was |
| ReleaseHost.RestoredExactly | scripts/leitstand-release.py:2771-2789 | a restoration brings the entry state back exactly if every part that differs is reached and put back |
| ReleaseHost.Host.RestoreTransaction | scripts/leitstand-release.py:2759-2839 | `complete` if and only if no action raised, the whole state equals the one at entry and the read-back is clean, whichever actions failed silently; each of the sixteen possible errors is listed exactly under its own condition; if no action failed the state is the one at entry |
| Deployment.Deployer.PointSelectors | scripts/leitstand-release.py:2898-2907 | an outgoing release is recorded exactly when it is managed and another one; then `current` is moved; raises, end state and pairs of selectors shown for every ending of the two moves |
| Deployment.Deployer.ActivateTimer | scripts/leitstand-release.py:2494-2495 | enabled first, then restarted; raises exactly if one of the commands does |
| Deployment.Deployer.GoForward | scripts/leitstand-release.py:2896-2919 | the forward half raises exactly when some step fails; its end state and the pairs of selectors it shows, raise or not |
| Deployment.ForwardReachesTarget | scripts/leitstand-release.py:2896-2919 | if every step works, target, recorded outgoing release, all four rendered units and a running timer are in place |
| Deployment.Deployer.TryForward | scripts/leitstand-release.py:2896-2956 | the body of the `try` statement ends exactly if every forward step works and the final receipt can be published |
| Deployment.Deployer.Abandon | scripts/leitstand-release.py:2957-2986 | "prior state restored" is reported if and only if no restore action raised, the state is the one at entry and the read-back is clean; with working restores and a clean read-back the restoration is never called incomplete; what is recorded is a failure, of this attempt and target |
| Deployment.Deployer.Attempt | scripts/leitstand-release.py:2896-2986 | succeeds if and only if every forward step works and the final receipt can be published; otherwise the state is judged by the restoration, and every state passed through is within scope |
| Deployment.Deployer.Begin | scripts/leitstand-release.py:2853-2895 | starts if and only if the target verifies, all reads succeed, the backup is written and a start receipt can be published |
| Deployment.Deployer.Transact | scripts/leitstand-release.py:2842-2986 | start and `try` statement together: no effect on the host unless started, and then one of the ways the statement can end, each with its end state |
| Deployment.Deployer.Conduct | scripts/leitstand-release.py:2842-2986 | the host and the ledger after a switch, for every pattern of failures |
| Deployment.EvidenceOf | scripts/leitstand-release.py:2892-2986 | the three writes together: which receipts are new, with which content, and where the links point, for every ending of each write |
| Deployment.Deployer.Switch | scripts/leitstand-release.py:2842-2986 | all or nothing over every pattern of failures: exactly when it starts and when it succeeds, step by step; the end state of a success, part by part; the entry state after "prior state restored". It leaves no receipt but one of the start, one of success and one of failure, of this attempt and target: started means one start receipt; restored or incomplete means one failure receipt; success means its receipt is the named one and `latest` points to it; a success receipt is left exactly if all worked up to the write that shows it |
| Deployment.Deployer.Rollback | scripts/leitstand-release.py:3283-3310 | raises without any effect exactly when nothing is recorded and no release is named; otherwise it is a switch to the recorded or named one, with the receipts of a rollback and no others |
| Deployment.Deployer.CreateSidecar | scripts/leitstand-release.py:3136-3142 | the exclusive create of a completion sidecar, with the half-written file among the states that can be exposed |
| Deployment.Deployer.PublishCompletion | scripts/leitstand-release.py:3134-3148 | which of sidecar and completion are there for every ending of the writes; nothing else in the directory changes, at any state |
| Deployment.Deployer.WriteCompletion | scripts/leitstand-release.py:3106-3149 | reads back what it wrote; a key already present returns the first record and changes nothing; it succeeds exactly when its effects do and the receipt matches; the key is wedged exactly when it dies between sidecar and rename |
| Deployment.Deployer.Replay | scripts/leitstand-release.py:3216-3241 | returns the stored completion exactly when `current` is the target, each unit file is the rendered one with mode 0600, all are loaded and postflight passes; it changes nothing |
| Deployment.RunsAsSwitched | scripts/leitstand-release.py:3216-3221 | that is exactly when selector and units are those any successful switch to this target with these units ends in |
| Deployment.PresentExactly | scripts/leitstand-release.py:3018-3103 | a completion is read exactly if it and its sidecar are there, agree, belong to the key, and name a successful deploy receipt of the same head with the same digest |
| Deployment.Deployer.SwitchTo | scripts/leitstand-release.py:3242-3251 | the switch of a deploy leaves only receipts of that switch |
| Deployment.Deployer.Conclude | scripts/leitstand-release.py:3252-3280 | after a switch, the deploy succeeds exactly when receipt and completion can both be written; then the completion can be read back and is of this head, configuration and receipt |
| Deployment.Deployer.CutOver | scripts/leitstand-release.py:3242-3280 | a deploy of a fresh key: the switch and its evidence, success exactly if the switch succeeds and receipt and completion can both be written |
| Deployment.Deployer.Deploy | scripts/leitstand-release.py:3214-3280 | refusal, replay, switch failure, lost evidence and success each under its condition, written out; no host effect unless the switch is reached; only this key's completion can change; no receipt but those of the switch and the one of the deploy; a completion names the receipt written for it |
| Deployment.StatesAreScoped | scripts/leitstand-release.py:2842-2986 | the entry state belongs to the run: with it, too, every state is within the transaction's scope |
| Deployment.StartedIsPossible | scripts/leitstand-release.py:2842-2986 | a started transaction whose `try` statement ended in an admissible way is one the run theorems speak about |
| ReleaseRuns.SelectorsAlwaysVerified | scripts/leitstand-release.py:2842-2986 | in every run of transactions from an empty install, cut off anywhere, each selector is at every state absent or names a release that verified in a started step which recorded it as target or outgoing release |
| ReleaseRuns.CurrentNeverVanishes | scripts/leitstand-release.py:2842-2986 | once a switch has succeeded, no later state of any run is without `current` |
| ReleaseRuns.SwitchKeepsDistinct | scripts/leitstand-release.py:2898-2907 | after a success the selectors differ if and only if it did not go to the recorded previous release without recording the outgoing one |
| ReleaseRuns.DistinctOverCleanRuns | scripts/leitstand-release.py:2898-2907 | over every run whose transactions finish, restore fully on failure and leave managed releases, the selectors differ |
| ReleaseRuns.OverlapsExactly | scripts/leitstand-release.py:2896-2986 | from different selectors, a transaction passes through equal ones if and only if the outgoing release is recorded before `current` moves, or the target is the recorded previous release and stays recorded, or a restoration puts that back but not `current` - for every pattern of failures |
| ReleaseRuns.SwitchOverlapsExactly | scripts/leitstand-release.py:2896-2907 | for a success: exactly if it leaves a managed selected release, or goes to the recorded previous one without recording the outgoing one |
| ReleaseRuns.EverySwitchOverlaps | scripts/leitstand-release.py:2898-2907 | a successful switch away from a managed release passes through a state where both selectors name it |
| ReleaseRuns.PreviousMayEqualCurrent | scripts/leitstand-release.py:2898-2907 | an instance: from B, which no longer verifies, back to the recorded A, and both selectors are A |
| ReleaseRuns.ReswitchKeepsPrevious | scripts/leitstand-release.py:2898-2906 | switching to the selected release changes neither selector at any state, success or not |
| ReleaseRuns.RollbackTwice | scripts/leitstand-release.py:3283-3310 | a rollback between distinct verified releases swaps the selectors and a second one swaps them back |
| ReleaseRuns.LookupIsStable | scripts/leitstand-release.py:3018-3103 | a completion that can be read still reads the same after any additions to the ledgers |
| ReleaseRuns.LedgerStaysProper | scripts/leitstand-release.py:3257-3272 | in every history of a ledger that was once proper, such as an empty one, each completion names a receipt, after crashes too |
| ReleaseRuns.CompletionPersists | scripts/leitstand-release.py:3018-3149 | once the completion of a key can be read - whether the deploy that wrote it returned, raised or was cut off - it reads the same before every later event, crashes in between included |
| ReleaseRuns.CompletedKeysNeverSwitch | scripts/leitstand-release.py:3214-3241 | from then on every deploy of the key starts no switch and writes nothing: it replays that very completion or raises |
| ReleaseRuns.DeployCompletes | scripts/leitstand-release.py:3252-3280 | a deploy that returned has completed its key for the next event |
| ReleaseRuns.CompletionMeansSwitched | scripts/leitstand-release.py:3242-3280 | only a deploy that switched completes a key: in every history, crashes included, what reads as completed goes back to an earlier deploy of that key whose switch succeeded |
| ReleaseRuns.SwitchedIsReplayed | scripts/leitstand-release.py:3216-3241 | right after a successful switch, what a deploy of the same target replays is there exactly if all is loaded and postflight passes |
| ReleaseRuns.FailedDeployLeaves | scripts/leitstand-release.py:3242-3280 | a raising deploy leaves the host as it was if and only if its switch did not start, or every part it changed is reached and put back, or it lost its evidence after a switch to the same state; whatever it reports, it lost its evidence exactly if it switched |
| ReleaseRuns.RaisingDeployMayHaveSwitched | scripts/leitstand-release.py:3252-3272 | an instance: a first deploy whose receipt cannot be written raises and has switched |
| ReleaseRuns.WedgedForever | scripts/leitstand-release.py:3018-3025 | a key with a lone sidecar stays so in every history and every later deploy of it is refused |
| BureauProjection.TaskDomains | scripts/decision_axis_selection.py:26-41 | the dictionary has exactly the ids some ball lists, each with the sorted set of all its domains |
| BureauProjection.AddMemberships | scripts/decision_axis_selection.py:34-37 | one ball adds its domain to exactly the ids it lists, repeated or blank ids included |
| BureauProjection.CurrentBalls | scripts/decision_axis_selection.py:44-77 | each current id once in order of appearance, with the union over all its balls of domains, statuses, kinds and lanes and the first title |
| BureauProjection.BuildTables | scripts/decision_axis_selection.py:26-77 | every lookup in the two dictionaries answers as the order-free summary of the balls |
| BureauProjection.LookAgrees | scripts/decision_axis_selection.py:111-125 | domains are the memberships, or the current balls' domains if there are none |
| BureauProjection.SortedTuple | scripts/decision_axis_selection.py:39-41 | the elements of a set, each once, in string order |
| BureauProjection.CurrentTasksHaveDomains | scripts/decision_axis_selection.py:111-125 | an id some ball is at always has a known domain |
| BureauProjection.UnmentionedIsNothing | scripts/decision_axis_selection.py:111-125 | an id no ball mentions has no domain, no status and no fallback title |
| BureauProjection.PermutationIsSame | scripts/decision_axis_selection.py:26-77 | permuting the balls, and the id list inside each, gives the same balls as sets |
| BureauProjection.ViewsForgetOrder | scripts/decision_axis_selection.py:26-77 | the summary is the same for the same balls in any order |
| BureauProjection.DomainsMean | scripts/decision_axis_selection.py:111-125 | the domains of an id are those whose balls list it; only an id no ball lists has those whose current ball it is; in strict order |
| BureauProjection.ViewMeans | scripts/decision_axis_selection.py:189-190 | running: some ball at the id is active or has an active run; claimable: among the balls at it one is ready, one offers an eligible task, one is in the now lane; ball by ball |
| BureauProjection.StripMeans | scripts/decision_axis_selection.py:9-10 | what `_text` leaves out is white space on both sides, and all of it |
| NowCorridor.FillIsPrefix | scripts/decision_axis_selection.py:220-288 | from any start, the allocation under a cap is the longer one cut off at the cap |
| NowCorridor.NowIsPrefixOfLargerCap | scripts/decision_axis_selection.py:169-288 | for every cap from 1 the Now list is the list for any larger cap cut off, across all three phases |
| NowCorridor.FillIsConflictFree | scripts/decision_axis_selection.py:226-247 | the allocator keeps ids distinct, domains disjoint and domains known |
| NowCorridor.NowIsConflictFree | scripts/decision_axis_selection.py:169-288 | Now items respect the cap, have distinct ids and disjoint domains; one without a domain can only be the global item, alone |
| NowCorridor.FillIsMaximal | scripts/decision_axis_selection.py:220-288 | below the cap no offer that still fits is left out |
| NowCorridor.NowIsMaximal | scripts/decision_axis_selection.py:169-288 | below the cap, every running or claimable id that is missing has no known domain or shares one with a Now item |
| NowCorridor.MissingMeansConflict | scripts/decision_axis_selection.py:169-288 | for real balls the missing id always shares a domain with a Now item |
| NowCorridor.SelectionForgetsOrder | scripts/decision_axis_selection.py:146-311 | ids, roles, domains and lanes of Now and Later, and their order, do not depend on the order of balls or id lists |
| CorridorOrder.TopActionFirst | scripts/decision_axis_selection.py:174-207 | the top action is the first item, with its domains, called active exactly if it is running |
| CorridorOrder.ItemsAreWork | scripts/decision_axis_selection.py:209-288 | every other item is running work, or claimable work of some action in the now lane, with the known domains the balls give its id |
| CorridorOrder.PhasesInOrder | scripts/decision_axis_selection.py:174-288 | the global item, then running work, then claimable work: phases do not fall along the list |
| CorridorOrder.RunningInOrder | scripts/decision_axis_selection.py:220-223 | running work stands in the strict order of its domains, then its ids |
| CorridorOrder.ClaimableInOrder | scripts/decision_axis_selection.py:249-288 | claimable work stands in the order in which its ids first qualify among the actions |
| CorridorOrder.MissingRunning | scripts/decision_axis_selection.py:220-247 | running work with known domains is missing only because the global item or running work before it in the order has one of its domains, or because those fill the list |
| CorridorOrder.MissingClaimable | scripts/decision_axis_selection.py:249-288 | claimable work is missing only because the global item, running work or an id that qualifies at an earlier action has one of its domains, or because those fill the list |
| CorridorOrder.LaterItem | scripts/decision_axis_selection.py:290-309 | an action neither in Now nor in the now lane stands in Later behind exactly those before it, if there is room, with its domains and lane |
| CorridorOrder.LaterLength | scripts/decision_axis_selection.py:290-309 | and there are no other items: as many as such actions, or as there is room for |
| CorridorOrder.ItemsArePicks | scripts/decision_axis_selection.py:146-311 | the returned items carry these picks in this order |
| CorridorOrder.ItemTitle | scripts/decision_axis_selection.py:93-108 | an item is titled by its own title, else by the current ball, else by its id |
| CorridorTitles.OneTitleForgetsOrder | scripts/decision_axis_selection.py:75-76 | with no two different titles on offer, the fallback title is the same for the same balls in any order |
| CorridorTitles.TitleForgetsOrder | scripts/decision_axis_selection.py:75-76 | the fallback title is the same for every order of the balls if and only if no two different non-empty titles are on offer |
| CorridorTitles.CorridorForgetsOrder | scripts/decision_axis_selection.py:93-108 | everything that is returned, titles included, is the same for every order of the balls if and only if each item has a title of its own or no two different ones to fall back on |
| CorridorTitles.TitleRemembersOrder | scripts/decision_axis_selection.py:75-76 | an instance: two balls at one id with different titles, and that id as the only action |
| NowCorridor.FillInTwoParts | scripts/decision_axis_selection.py:220-288 | filling with the active candidates and then with the actions is filling with both in a row |
| NowCorridor.FoundAreActive | scripts/decision_axis_selection.py:209-223 | sorting the candidates in dictionary order gives the same sequence as in any other |
| NowCorridor.SelectGlobal | scripts/decision_axis_selection.py:174-207 | the first action is taken whatever its domains; parallel work is allowed exactly if they are known or there is no action |
| NowCorridor.FindCandidates | scripts/decision_axis_selection.py:209-223 | the sorted candidates are exactly the running ids of the summary |
| NowCorridor.SelectActive | scripts/decision_axis_selection.py:220-247 | the loop with its three running variables computes the greedy allocation of the active candidates |
| NowCorridor.SelectClaimable | scripts/decision_axis_selection.py:249-288 | the loop continues the allocation with exactly the claimable actions, in Bureau's order |
| NowCorridor.SelectLater | scripts/decision_axis_selection.py:290-309 | the first remaining actions outside the now lane, repetitions kept, at most as many as asked for |
| NowCorridor.Build | scripts/decision_axis_selection.py:146-311 | nothing without a projection, an error for invalid limits, otherwise Now and Later as specified from the summary, titles included |
| ByteCodec.FieldRoundTrip | scripts/leitstand-release.py:766-772 | a NUL-free field is recovered from its NUL-terminated form |
| ByteCodec.DecimalRoundTrip | scripts/leitstand-release.py:772 | a size printed in decimal reads back |
| ByteCodec.BigEndianRoundTrip | scripts/leitstand-export-operator-snapshots:83-85 | a number below 256^k reads back from k big-endian bytes |
| DigestStream.DecodesLayout | scripts/leitstand-release.py:766-777 | each record is recovered from the front of the stream, whatever follows |
| DigestStream.StreamRoundTrip | scripts/leitstand-release.py:759-777 | the hashed stream of any listing with NUL-free names and targets, and any file bytes, decodes to that listing |
| DigestStream.StreamInjective | scripts/leitstand-release.py:759-777 | equal pre-hash bytes mean equal listings |
| DigestStream.FormatExample | scripts/leitstand-release.py:766-772 | a directory, a link and an executable file, byte by byte |
| DigestStream.Feed | scripts/leitstand-release.py:774-776 | reading in chunks feeds exactly the file's bytes |
| DigestStream.HashListing | scripts/leitstand-release.py:759-777 | the loop feeds exactly the stream of the listing, after whatever was fed before |
| PathText.SplitJoin | scripts/leitstand-release.py:705-706 | a path of slash-free names is recovered from its text |
| LinkFollowing.FollowTravels | scripts/leitstand-release.py:688-694 | following that never leaves its tree, links in the middle included, takes the same course wherever the tree is put and whatever else is there |
| LinkFollowing.LeavingEndsOutside | scripts/leitstand-release.py:688-694 | following that does leave its tree ends outside, if the tree is alone under a name no link mentions |
| LinkFollowing.OutsideStays | scripts/leitstand-release.py:688-694 | a path outside the tree that never mentions its name does not come back |
| ReleaseTree.HashEntries | scripts/leitstand-release.py:704-724 | entries are fed in order, and the walk raises exactly if one is a special file or a link that does not lead inside |
| ReleaseTree.HashDirectory | scripts/leitstand-release.py:697-777 | directory-like entries, then the others, then the directories below: the walk raises exactly if some entry of the tree is not acceptable, and otherwise feeds the records of the whole tree |
| ReleaseTree.HashBelow | scripts/leitstand-release.py:700-712 | links to directories are fed but not entered; all real directories are, in sorted order |
| ReleaseTree.DigestTree | scripts/leitstand-release.py:759-777 | the digest of a tree where it is: an exception or the stream of its records |
| ReleaseBuild.RecordsModed | scripts/leitstand-release.py:727-777 | normalising or sealing the modes of a tree changes no hashed record |
| ReleaseBuild.WalkableModed | scripts/leitstand-release.py:697-756 | it does not change whether the walk raises either |
| ReleaseBuild.ManifestIsExcluded | scripts/leitstand-release.py:762-764 | wherever a manifest lands among the entries of the root, records and walkability stay the same |
| ReleaseBuild.PublishedIsBuilt | scripts/leitstand-release.py:1071-1100 | what is published has, at any one place, the links, the records and the walkability of what was built |
| ReleaseBuild.BuildThenVerify | scripts/leitstand-release.py:1071-1111 | the digest recomputed after sealing and renaming is the one taken before the manifest if and only if every link leads inside from the final place and the walk meets the same listing there |
| ReleaseMoves.StayingLinkTravels | scripts/leitstand-release.py:688-694 | a link that, followed through all links on its way, never leaves its tree leads to the same place in it wherever it is put |
| ReleaseMoves.StayingLinksWalk | scripts/leitstand-release.py:697-724 | a tree of such links can be walked at any place |
| ReleaseMoves.StayingRecordsTravel | scripts/leitstand-release.py:697-777 | its listing is the same at any two places, the sorting of links to directories included |
| ReleaseMoves.BuiltReleaseVerifies | scripts/leitstand-release.py:1071-1111 | any such tree builds, and its digest is found again under the final name, on any machine |
| ReleaseMoves.WalkableEverywhere | scripts/leitstand-release.py:688-724 | the trees that can be walked at every place on every machine are exactly these |
| ReleaseMoves.AbsoluteLinkBreaks | scripts/leitstand-release.py:688-694 | an absolute link into the build directory passes the digest of the build and, that directory gone, fails verification |
| ReleaseMoves.LinkThroughLinkLeaves | scripts/leitstand-release.py:691-692 | an instance: neither text climbs out of the tree, but the second link leaves it through the first |
| ReleaseListing.WalkOrder | scripts/leitstand-release.py:700-724 | per directory: its entries, each once, sorted by name, those taken for directories first; then what is below each real directory, in that order |
| ReleaseListing.ExecutableBits | scripts/leitstand-release.py:771 | a file counts as executable exactly if one of the three execute bits is set |
| ReleaseListing.ModesMean | scripts/leitstand-release.py:727-756 | owner-only while building, read-only when sealed; a file stays executable exactly if it was |
| ReleaseListing.DigestDeterminesTree | scripts/leitstand-release.py:759-777 | trees with the same digest stream have the same paths apart from the manifest, and under each the same kind, link text, executable bit and bytes |
| SnapshotTree.TakesBack | scripts/leitstand-export-operator-snapshots:83-86 | a length-prefixed block is taken back off the front of any stream |
| SnapshotTree.StreamRoundTrip | scripts/leitstand-export-operator-snapshots:72-87 | for keys below 2^32 and contents below 2^64 bytes the stream decodes to its (path, content) list |
| SnapshotTree.FormatExample | scripts/leitstand-export-operator-snapshots:83-86 | one small file, byte by byte |
| SnapshotTree.ReadTree | scripts/leitstand-export-operator-snapshots:72-87 | raises exactly if some path is not a declared regular file or too long; otherwise digest and dictionary are those of the records read |
| SnapshotTree.ContentsByKey | scripts/leitstand-export-operator-snapshots:82 | with distinct keys the dictionary holds under each key the bytes hashed for it |
| SnapshotTree.CheckInventory | scripts/leitstand-export-operator-snapshots:536-549 | accepts exactly the non-empty lists of relative paths without "..", no two naming the same file |
| SnapshotTree.InventoryMeans | scripts/leitstand-export-operator-snapshots:537-549 | the reasons for refusing an inventory, written out |
| SnapshotTree.SafeStaysBelow | scripts/leitstand-export-operator-snapshots:544-547 | an accepted path, taken part by part from the root of the snapshot, never leaves it and ends at the path that is read |
| SnapshotTree.ReadChecked | scripts/leitstand-export-operator-snapshots:550-572 | accepts exactly if all files can be read, the bytes match, the queue is declared and declared and actual task files are the same set |
| SnapshotTree.SortedEqualMeansSameFiles | scripts/leitstand-export-operator-snapshots:559-572 | the sorted lists are equal exactly if they hold the same files |
| SnapshotTree.DocumentsAreHashed | scripts/leitstand-export-operator-snapshots:559-619 | after the checks, the documents are exactly the declared and actual task files, each once, with the bytes hashed under its path |
| SnapshotTree.TakeDocuments | scripts/leitstand-export-operator-snapshots:617-619 | one document per declared path, in order, from the bytes read for the digest |
| SnapshotTree.ParseTasks | scripts/leitstand-export-operator-snapshots:617-619 | every parsed document is a record the expected digest stream decodes to |
| SnapshotTree.LoadTasks | scripts/leitstand-export-operator-snapshots:536-619 | from inventory to documents: accepted exactly under all checks, and then parsed from hashed bytes only |
| Insights.SanitizeIndexedItems | src/insights.ts:106-128 | keeps the valid items in order, and maps each valid raw position to the number of valid ones before it |
| Insights.IndexMapIsBijection | src/insights.ts:106-128 | the index map is a strictly increasing bijection from the valid raw positions onto 0..n-1, and each position keeps its item |
| Insights.ChosenStep | src/insights.ts:173-177 | one more entry matters only to its own canonical key, and only if valid and first, or the first canonical spelling |
| Insights.SanitizeSection | src/insights.ts:154-181 | under every canonical key the first valid canonical entry, or else the first valid entry of any spelling |
| Insights.RemapSection | src/insights.ts:203-220 | an entry is kept exactly if its index survives, under the index the item has now, in whatever order the keys are visited |
| Insights.SanitizeList | src/insights.ts:106-220 | references follow their items: every key is the present index of a surviving item and its entry the one chosen for the item's raw index, and none is lost |
| Insights.FollowingKeyIsClean | src/insights.ts:130-220 | every resulting key is a valid index of the sanitized list in canonical form, with trimmed, non-empty references and a safe link |
| Insights.CleanEntriesStay | src/insights.ts:130-152 | an entry the code produced passes through it unchanged |
| Insights.SectionIdempotent | src/insights.ts:154-220 | sanitizing and remapping a resulting section against its own list gives it back, however its keys are listed |
| Insights.SanitizeDailyInsights | src/insights.ts:249-287 | null exactly for no record, a missing required date or nothing at all; otherwise each field as specified and references following their items |
| Insights.SanitizingIsIdempotent | src/insights.ts:249-287 | a non-null result fed back in, under the same option and with its sections listed in any order, comes out the same in every field |
| SiteLinks.TwoSlashesLeave | src/insights.ts:89-92 | a reference that starts with two slashes leads away from some site it may be found on (RFC 3986, section 4.2) |
| SiteLinks.OneSlashStays | src/insights.ts:89-92 | one that starts with a single slash keeps scheme and authority of every base |
| InsightsMeaning.SafeStaysOnSite | src/insights.ts:89-92 | the guard accepts exactly the absolute paths that stay on the site, whichever it is |
| InsightsMeaning.SanitizedEntryMeans | src/insights.ts:130-152 | an entry has the trimmed texts that are not blank, in their order, and the trimmed link exactly if it stays on the site; there is none exactly without such a text |
| InsightsMeaning.ChosenMeans | src/insights.ts:161-178 | the first valid entry under the very key; without any, the first under another spelling; none only if no valid entry names the index |
| InsightsMeaning.SectionKeeps | src/insights.ts:154-220 | a raw item that survives and that a valid entry names has an entry under its index now, made from the chosen raw entry, its link included |
| InsightsMeaning.SectionOnlyKeeps | src/insights.ts:154-220 | every entry of a section is there for that reason |
| InsightsMeaning.AllLinksStay | src/insights.ts:249-287 | every link in a result stays on the site it is found on |
| InsightsMeaning.TopicEntryKept | src/insights.ts:249-287 | for raw topics and the whole result: the entry of a surviving item is there, with its link exactly if that stays on the site |
| InsightsMeaning.QuestionEntryKept | src/insights.ts:249-287 | the same for raw questions |
| InsightsMeaning.DeltaEntryKept | src/insights.ts:249-287 | the same for raw deltas |
| InsightsMeaning.MetadataMeans | src/insights.ts:63-87 | two fields stay exactly if they are texts, one exactly if it is a finite number from 0 to 1, all others stay; nothing left means no metadata |
| JsText.TrimIsTrimmed | src/insights.ts:138-146 | trimming leaves no outer white space and leaves trimmed text alone |
| JsText.TrimCuts | src/insights.ts:138-146 | what trimming takes away is white space on both sides |
| JsText.DecimalTextRoundTrip | src/insights.ts:166-167 | `String(Number(key))` of a printed index is that index |
| NavigationJson.HardenUnit | src/controllers/ecosystemMapNavigation.ts:119-126 | five replacements in a row turn each unsafe unit into its escape and leave every other one, none undoing another |
| NavigationJson.HardenedIsSafe | src/controllers/ecosystemMapNavigation.ts:119-126 | the output holds none of `<`, `>`, `&`, U+2028, U+2029 |
| NavigationJson.TextRoundTrip | src/controllers/ecosystemMapNavigation.ts:119-126 | every string content, runs of backslashes and lone surrogates included, reads back from its hardened text |
| NavigationJson.ValueRoundTrip | src/controllers/ecosystemMapNavigation.ts:119-126 | so does every value nested in arrays and objects, whatever follows it |
| NavigationJson.SerializeRoundTrip | src/controllers/ecosystemMapNavigation.ts:119-126 | reading the serialised navigation gives the original list, field by field |
| NavigationJson.FieldsRoundTrip | src/controllers/ecosystemMapNavigation.ts:103-126 | in the parsed list each node has each field under that field's name, `null` for a missing review date |
| NavigationJson.SerializeInjective | src/controllers/ecosystemMapNavigation.ts:119-126 | different navigations serialise differently |
| MermaidNodes.ExtractIdentities | src/controllers/ecosystemMapNavigation.ts:60-80 | identities in line order, neither id twice; a usable line is missing only if an earlier identity shares one of its two ids |
| MermaidNodes.ExtractionIsUnique | src/controllers/ecosystemMapNavigation.ts:60-80 | these conditions determine the list |
| Metrics.ScanBatch | src/metrics.ts:222-236 | one batch extends the unique newest file by (time, name) |
| Metrics.ScanInBatches | src/metrics.ts:206-239 | for every batch size the result is the maximum by (time, name); a failing `stat` never yields a file |
| Metrics.Rejection | src/metrics.ts:214-220 | a batch is rejected exactly if some file of it cannot be stated |
| Metrics.NewestIsUnique | src/metrics.ts:228-235 | there is one such maximum |
| Metrics.NewestForgetsOrder | src/metrics.ts:206-239 | it does not depend on the directory order |
| Metrics.PickDated | src/metrics.ts:190-203 | with dated files, the one with the greatest date |
| Metrics.PickLatest | src/metrics.ts:179-239 | dated files win over all others; without them the newest file; nothing for a directory without JSON files |
| Metrics.LoadLatest | src/metrics.ts:179-246 | nothing only for a missing directory, no JSON file or a vanished one; an error only for an unlistable directory or an unreadable file |
| Metrics.ProcessingSettles | src/metrics.ts:61-89 | processing twice is processing once; no other issue is lost; a changed status is `ok` with no issue left |
| Metrics.ProcessingMeans | src/metrics.ts:61-89 | the one issue is suppressed exactly if the profile is not expected, by the context first, the configuration second and yes by default; nothing else changes but the status of a repository left without issues |
| Metrics.BucketsMean | src/metrics.ts:142-145 | the counters count the repositories with status ok, warn and fail; unknown is all others |
| Metrics.Recount | src/metrics.ts:133-148 | the four counters are the numbers of processed repositories in each status |
| Metrics.CountsCoverAll | src/metrics.ts:133-153 | every repository is counted exactly once |
| Metrics.BuildSnapshot | src/metrics.ts:115-167 | recounted status and repositories replace the file's own when there are any; the reported counts add up exactly if some repository is unknown or no stale count is brought along |
| Metrics.CountsAddUp | src/metrics.ts:151-159 | the exact condition under which ok, warn, fail and the reported unknown count sum to the repositories |
| Metrics.StaleCountSpoils | src/metrics.ts:156-159 | an instance: one repository that is ok and a stale count of one are reported as two |
| Lifecycle.DayNumberCountsDays | src/controllers/ecosystemMap.ts:388-398 | the day numbering used as reference gives consecutive numbers to consecutive valid dates, leap days and year ends included |
| Lifecycle.EarlierHasSmallerNumber | src/controllers/ecosystemMap.ts:388-398 | an earlier valid date has a smaller day number |
| Lifecycle.DigitsByValue | src/controllers/ecosystemMap.ts:389-393 | digit strings of one length are ordered and told apart by value |
| Lifecycle.ShapeOrder | src/controllers/ecosystemMap.ts:389 | strings of the date shape compare as (year, month, day) |
| Lifecycle.StringOrderIsCalendarOrder | src/controllers/ecosystemMap.ts:388-398 | on accepted dates, string order is the order of day numbers, and equality likewise |
| CalendarForm.DayNumberIsClosed | src/controllers/ecosystemMap.ts:388-398 | the day number is the closed form of the Gregorian calendar, which knows neither month lengths nor the leap rule |
| CalendarForm.DatesExactly | src/controllers/ecosystemMap.ts:394-397 | year, month and day are a date exactly if they come before the first of the next month in the closed form |
| CalendarForm.ExactDatesExactly | src/controllers/ecosystemMap.ts:388-398 | the accepted strings are exactly the texts of the dates from year 1 to 9999 |
| CalendarForm.NamedMeans | src/controllers/ecosystemMap.ts:422-430 | text that is more than white space, and text without outer white space |
| CalendarForm.NodeMeans | src/controllers/ecosystemMap.ts:421-449 | what makes a node valid, field by field |
| Lifecycle.MapNodes | src/controllers/ecosystemMap.ts:418-461 | succeeds exactly if all nodes are valid with distinct ids; then the nodes are the raw ones in order and the counts sum to their number |
| Lifecycle.FirstReview | src/controllers/ecosystemMap.ts:462-464 | the first in string order is the earliest by the calendar |
| Lifecycle.InspectNodes | src/controllers/ecosystemMap.ts:412-475 | declared exactly for a non-empty list of valid, distinct nodes; then with counts per state and the earliest review date; otherwise nothing but the declared number |
| Lifecycle.CountStep | src/controllers/ecosystemMap.ts:450-451 | counting a node keeps each state's count and the sum equal to the nodes so far |
| Orders.SortForgetsOrder | scripts/decision_axis_selection.py:220-223 | sorting by a total order depends only on the elements |
| Orders.LexByFirstDifference | scripts/decision_axis_selection.py:220-223 | the order of tuples and strings: the first difference decides, a proper prefix is smaller |

## Left out

- systemctl, `ss`, HTTP, TLS, git, the browser smoke check, the producers and the validation commands: their answers and endings are inputs.
- Asynchronous interruption between any two effects is modelled by cutting a run off at a state; an exception raised while `_restore_transaction` is between two actions is not distinguished from that.
- The temporary files of atomic replace, atomic symlink and completion writes: replace, rename and exclusive create are single steps, with one writer under the deploy lock.
- Owners, link counts of evidence files, inodes, fsync and symlink ancestry: a file that does not pass them is not represented.
- Canonical JSON and SHA-256: a document is identified with its value, and the digest is taken to be injective.
- The bytes of the prior-state backup, the receipts of builds and of Systemkatalog preparation, and `status`: evidence only.
- The build and Systemkatalog preparation before the completion lookup of `deploy_release`: one input says whether they all passed.
- `verify_release_path` beyond the digest (head file, critical artifacts, root mode, runtime links): part of the one answer "verifies"; the list of runtime link names is empty in this version.
- A path that leads back to itself: whether `Path.resolve` raises on it depends on the Python version, so the answer is an input; the kernel's limit on the number of links in one path is not modelled.
- The directories above a release are taken to be real ones, as `assert_secure_ancestry` demands; what else is on the machine is an input.
- `private_release_permissions` and `seal_release` are functions of a tree, not a walk that changes modes in place: the order in which modes change, and a walk that raises half-way, are not captured.
- A build that finds its target already there, or loses the race for it, reuses the existing release.
- Waiting for the timer to settle, and all other waiting: one yes or no.
- Links are resolved as in RFC 3986; what browsers accept beyond it, such as backslashes for slashes, is not modelled.
- The wording of an item's `detail` and `meta`: the model keeps role, domains and lane they are formatted from.
- JSON values outside a navigation list (numbers, booleans) and white space between tokens: the serializer writes none.
- Reference keys from 2^53 on are skipped at once; in the source they survive canonicalisation and are dropped by the index map, which no such index can be in.
- Metrics: the timestamp, list elements after the first that are no objects, and which of several concurrent `stat` rejections comes first; `localeCompare` on dates is code-unit order.
- The regular expression for Mermaid node definitions and the rest of the navigation items: a line comes with its groups.
- Inventory digest, manifest fields and the Bureau queue's lanes: field checks before and after the part modelled.
- The other controllers, configuration, loaders, events, digests, Markdown, command line, routes, views and static build: validation and rendering of single fields.
