# HarkenIQ: a verified model of its hard core

A Dafny model of the parts of HarkenIQ whose correctness depends on more than one function, with
proofs over unbounded inputs and runs. One module per file.

**The node agent.** `AgentRuns` is the transition system of one agent shared by the poll loop, the
report loop and any number of directive tasks, cut at their awaits; `RateLimits`, `Counters`,
`StopWindow` and `Contact` are proved of its runs. `Gates`, `Lease`, `BlastRadius`
and `Actions` are the gate chain and what it reads, as classes the methods update in place.
`PollLoop` is the poll loop and its recovery, `Decisions` the approval protocol between the node, the
Site Manager and the command line (with object identity, since a reload replaces queued objects),
`Directives` the at-most-once dispatch, `Reports` the verdict cache, `LogCursor` the BMC log cursor.

**Governance shared by services.** `Params` is the parameter contract, its resolver and its
validator; `Identity` the operation identity and key payload; `Provenance` the visibility markers and
their join.

**Codecs and maps.** `Urls` (percent-encoding by section 2.1 of RFC 3986, query strings by section 5
of the WHATWG URL Standard), `Config` (the layered merge), `Permissions` (route rules and redirects).

**Smaller pieces.** `Tickets` (the request-ticket hook), `Overlays` (the overlay stack),
`Correlation` (the demo's coefficient). `Text`, `Order` and `Wrappers` are shared helpers.

Run `dafny verify dfyconfig.toml` to check everything.

## Where the code does not do what is said of it

Each is a lemma with the exact condition, or with a concrete run.

- Successful outcomes and records are equal only while no audit write raises: the executor sets the
  outcome, then awaits the audit entry, and the accounting comes after (src/harkeniq/actions/executor.py:93-162).
- The blast-radius limiter forgets: at 101 stamps it keeps 50. A limit is enforced in sequential use
  exactly when it is at most 50 or its cooldown alone enforces it, and the four classes at 999 are not
  limited at all. With m executions in flight a class reaches limit - 1 + m.
- The stop switch does not reach an admitted CONFIG_RESTORE that is still reading the device
  configuration: its playbook does not ask again before it writes.
- Six classes (SEL_CLEAR, POWER_CYCLE, CLEAR_COUNTERS and the three INTERFACE classes) are refused in
  every state, and the local budget counters decide nothing over any run (in one decision that is
  read off the chain: `Gates.LocalCountersGateNothing`).
- An approved action is executed again by the next cycle exactly when a pass that found decisions
  reloaded the table while the first cycle was executing, or when that cycle raised before its save.
  A command-line decision taken in that window is lost exactly when no such reload follows it.
- A proposal with a blank id has no key and can be executed twice.
- Verdicts that give one sensor two severities are re-sent for ever.
- A log entry id with a comma is never recognised again; an empty poll leaves the cursor alone.
- A required unavailable parameter with an empty `missing_input`, a required default or annotation
  parameter, or a governed class without a table entry makes the contract and the resolver disagree.
  The declared table has none of these. A blank component or reason passes the resolver's loop and
  fails its validation.
- `combine` depends on order for one shape: site markers without an id among markers of one site.
- Merging is not associative when a leaf sits between two sections, unless the upper covers the lower.
- A link whose id is `.` or `..` holds a dot segment, and an empty id reads as another page.
- A tenant user settles exactly when the user's own dashboard is served where the redirect lands, which
  fails for ids with `?` or `#` (a navigation target is cut there) and for most ids with a slash. This
  says what the redirect does with such an id, not that one occurs: tenant ids are made by `new_id`, a
  hexadecimal UUID (services/console/src/harkeniq_console/db/models.py:31-46), and no path by which
  another id would reach the redirect is part of this model.
- A refresh kept from an enabled render still fetches on a disabled hook.
- Overlays closed with the first-opened one not last leave focus on another overlay's opener. An element
  open on both sides of a different one misplaces the stack; no page of this program opens an element
  twice: the only callers are console-ui/src/components/ConfirmDialog.tsx:77 and
  console-ui/src/components/DetailPanel.tsx:63, each with an element of its own.

## Model

| member | source | states |
|---|---|---|
| `AgentRuns.BooksBalance` | src/harkeniq/agent.py:1420-1451 | in every interleaving of poll cycles, directive tasks and acknowledgements, at every await point and for every class: budget consumptions = blast-radius records = accounted successes; successes exceed records by exactly the ones whose audit write raised before the accounting; the limiter holds exactly the recorded times, trimmed |
| `AgentRuns.SuccessesEqualRecordsIffNoneLost` | src/harkeniq/agent.py:1440-1451 | successful gated outcomes equal records exactly when no audit write raised between a success and its accounting |
| `AgentRuns.EveryTaskTraced` | src/harkeniq/agent.py:1420-1451 | at every await point a task's phase, admission, start and refusal agree: nothing is dispatched that was not admitted, refused tasks are finished and never admitted |
| `AgentRuns.AdmittedAtItsStep` | src/harkeniq/agent.py:1280-1337 | each logged admission is the agent's own gates at the run's step that decided it, with that step's facts and clock |
| `AgentRuns.StartsCarryTheirGates` | src/harkeniq/agent.py:1280-1337 | every start goes back to a gate step of the run: the gates, facts and clock logged with it are the agent's at that step, and all gates held then |
| `AgentRuns.RefusedNeverStarts` | src/harkeniq/agent.py:1391-1418 | every refusal goes back to a gate step of the run, for the reason the chain gave on the agent's gates at that step; a refused action is never admitted, never starts, and ends refused |
| `RateLimits.OverlapBoundsRecords` | src/harkeniq/agent.py:1333-1337 | if at most m executions of a class overlap, its records in a window plus those in flight never exceed limit - 1 + m, for every limit of 1 to 50 (every limit of the table but the 999s, which never refuse) |
| `RateLimits.PollLoopAloneRespectsLimit` | src/harkeniq/agent.py:1171-1186 | with no directive for a class, cycles alone never overlap and the limit is never exceeded |
| `RateLimits.OverlapBoundIsReached` | src/harkeniq/agent.py:1188-1248 | the bound is tight: for each of FAN_RESET, BMC_RESET and POWER_CAP_ADJUST and every m > 0 there is a run in which at most m executions overlap and limit - 1 + m records fall in one window |
| `Contact.KnowsTheLast` | src/harkeniq/agent.py:878-905 | over every run the agent is in contact exactly when its last heartbeat was acknowledged, and holds exactly the lease installed last with its stop switch mirrored |
| `Contact.AdmittedIffLetThrough` | src/harkeniq/agent.py:1280-1337 | in every reachable state the chain admits a listed task exactly when the events of the run let it through: its facts, everything its class has recorded, the lease installed last, and for the grant whether the last heartbeat was acknowledged |
| `Contact.GateStepStartsIff` | src/harkeniq/agent.py:1391-1439 | in every reachable state the gate step starts the task on the device exactly when those events let it through (a CONFIG_RESTORE goes on to read the configuration), and ends it refused exactly when they do not |
| `Counters.UsedCountsConsumptions` | src/harkeniq/autonomy/budget.py:97-111 | from any state, over any run that leaves a class limited, its usage counter grows by exactly the consumptions |
| `Counters.UsedAtMostConsumed` | src/harkeniq/autonomy/budget.py:51-111 | over any run of the agent no counter shows more use than was consumed |
| `Counters.CountersNeverMatter` | src/harkeniq/agent.py:1307-1337 | the local budget counters decide nothing over any run: states that differ only in them take the same steps, with the same decisions, starts, refusals and notes |
| `StopWindow.StopSwitchHalts` | src/harkeniq/agent.py:1307-1310 | from a stopped state until a parsed lease is installed, whatever empty or invalid leases arrive, no allow-listed action is admitted on either path and nothing starts driving the device except a configuration write admitted before |
| `StopWindow.StopIsCompleteIffNoPendingWrite` | src/harkeniq/agent.py:678-735 | the stop switch stops every later device action exactly when no admitted CONFIG_RESTORE is still awaiting the device configuration inside its playbook |
| `StopWindow.InstalledStopHalts` | src/harkeniq/agent.py:878-905 | the same from the step at which an acknowledgement installs a lease with its stop switch set, in whatever state it finds the agent |
| `Gates.AdmittedMeansGatesHeld` | src/harkeniq/agent.py:1280-1337 | an allow-listed action is admitted only if preconditions, stop switch, lease expiry, autonomy verdict and blast radius all held at that instant |
| `Gates.ApprovalCoversGrant` | src/harkeniq/agent.py:1311-1331 | whatever is admitted on the autonomy grant is admitted on a human approval; the two differ exactly when a held lease does not say execute |
| `Gates.AdmissibleClasses` | src/harkeniq/autonomy/preconditions.py:32-325 | six classes are refused in every state because a fact they need is never observed; every other class is admitted in some state even on the autonomy grant |
| `Gates.ApprovalAdmittedIff` | src/harkeniq/agent.py:1280-1337 | a listed action with a human approval is admitted exactly when evidence, stop switch and rate limit allow it and the held lease has not ended by the second clock read, or had not denied the class at the first: a lease that says propose, names another class or has no budget left does not refuse it |
| `Gates.GrantAdmittedIff` | src/harkeniq/agent.py:1280-1337 | on the autonomy grant the held lease must also run, name the class, leave it budget, and the class be of low risk or the Site Manager connected |
| `Gates.RefusalNamesTheFirstGate` | src/harkeniq/agent.py:1280-1337 | a refusal names the first failing gate in the order of the chain, and a lease verdict refuses nothing but the grant |
| `Gates.AdmittedOnEvidenceIff` | src/harkeniq/autonomy/preconditions.py:69-190 | some state of the gates admits a BMC reset exactly after three failed polls, a firmware update exactly on a healthy device, a power cap exactly in a thermal or power event and within policy; five classes need no evidence |
| `Gates.Agent.ProcessHeartbeatAck` | src/harkeniq/agent.py:878-910 | the acknowledgement's branches in place: lost contact, no lease, no identity, invalid bytes, installed lease mirrored into the budget |
| `Gates.Agent.AuthorizeExecution` | src/harkeniq/agent.py:1280-1337 | the method decides exactly as the chain: branch order, the fall-through outside the allow list and each refusal reason |
| `Gates.Agent.BeginGated` | src/harkeniq/agent.py:1391-1439 | a refusal is terminal at once with a failed outcome; an admission leaves the action to the executor |
| `Gates.Agent.Account` | src/harkeniq/agent.py:1448-1450 | consumption and record happen together, in the class of the action |
| `Gates.Agent.FinishGated` | src/harkeniq/agent.py:1448-1451 | only a successful outcome is accounted, in one step, to both collaborators |
| `BlastRadius.Limiter.Allows` | src/harkeniq/autonomy/blast_radius.py:62-93 | the limiter answers by cooldown since the last record and the strict count inside the window |
| `BlastRadius.Limiter.Record` | src/harkeniq/autonomy/blast_radius.py:95-101 | a record appends, and the 101st cuts the list to its last 50 |
| `BlastRadius.KeptIsKept` | src/harkeniq/autonomy/blast_radius.py:95-101 | after any records the limiter holds a suffix of everything recorded, whole or at least 50 long |
| `BlastRadius.TrimmingIsHarmless` | src/harkeniq/autonomy/blast_radius.py:62-101 | for a limit of at most 50 the trimming limiter answers as one that never forgets, on every history |
| `BlastRadius.EnforcedIff` | src/harkeniq/autonomy/blast_radius.py:62-101 | sequential use respects a limit exactly when it is at most 50 or its cooldown alone spaces the records out (limit times cooldown reaches the window) |
| `BlastRadius.LargeLimitIsOverrun` | src/harkeniq/autonomy/blast_radius.py:95-101 | every other limit has a sequential run that overruns it |
| `BlastRadius.HugeLimitOnlyCools` | src/harkeniq/autonomy/blast_radius.py:62-101 | a limit above 100 refuses exactly what its cooldown refuses |
| `BlastRadius.DefaultTable` | src/harkeniq/autonomy/blast_radius.py:31-47 | of the default table the four classes at 999 are never limited and every other class is counted as if nothing were forgotten |
| `Lease.Budget.UpdateFromLease` | src/harkeniq/autonomy/budget.py:51-73 | each class the lease names takes its figure and keeps its usage; others are untouched; the stop switch is copied |
| `Lease.Budget.Consume` | src/harkeniq/autonomy/budget.py:97-111 | one unit off a limited class, never below zero, and nothing off an unlimited or unknown one |
| `Lease.RefreshAll` | src/harkeniq/autonomy/budget.py:51-73 | the refresh loop gives the same entries in whatever order the classes come |
| `Lease.AuthorityDecays` | src/harkeniq/autonomy/lease.py:84-152 | a lease that executes a class now executed it at every earlier moment of the same contact, and does so with the Site Manager connected |
| `Lease.VerdictIff` | src/harkeniq/autonomy/lease.py:101-152 | execution needs every field of the lease to allow it; denial is for a stopped or ended lease and for a class a running lease leaves out; whatever order they are tested in |
| `Lease.StagesOfALease` | src/harkeniq/autonomy/lease.py:84-152 | a class with budget left executes until the expiry, is proposed until the grace ends, and is denied from then on |
| `Lease.ConsumedCountsDown` | src/harkeniq/autonomy/budget.py:97-111 | any number of successes counts a limited class down to zero and no further, counts every use, and leaves an unlimited class and the others alone |
| `PollLoop.ObservingAtEveryHead` | src/harkeniq/agent.py:541-568 | for every run with faults at any awaits the walk is legal and ends in OBSERVING at each loop head |
| `PollLoop.CycleEndsAtFirstFault` | src/harkeniq/agent.py:1513-1571 | a cycle ends with the first of its awaits that did not return, in source order |
| `PollLoop.PathIsLegal` | src/harkeniq/agent.py:1513-1571 | every cycle's states follow the transition table, and a cycle without fault ends in OBSERVING |
| `PollLoop.FailsWhereItAwaits` | src/harkeniq/agent.py:1513-1571 | a failed cycle stops in the state its first failing await was made in, await by await |
| `PollLoop.RecoveryIsShortest` | src/harkeniq/agent.py:85-92 | from every mid-cycle state the recovery path is a legal walk to OBSERVING and no legal walk from there is shorter |
| `PollLoop.RecoveryUsesNormalTransitions` | src/harkeniq/agent.py:85-92 | each recovery transition is one a fault-free cycle makes |
| `PollLoop.Poller.Transition` | src/harkeniq/state/machine.py:43-64 | a transition outside the table raises and changes nothing |
| `PollLoop.Poller.RecoverToObserving` | src/harkeniq/agent.py:763-767 | recovery terminates by a distance and walks exactly the recovery path |
| `PollLoop.Poller.PollAndEvaluate` | src/harkeniq/agent.py:1513-1571 | one cycle: entered states, end state and raised fault for every fault pattern; the guard fires exactly when not in OBSERVING |
| `PollLoop.Poller.DriveApproved` | src/harkeniq/agent.py:1538-1564 | the approval pipeline's states and its fault, execution by execution |
| `PollLoop.Poller.Iterate` | src/harkeniq/agent.py:541-568 | one iteration: a caught fault counts and recovers, a clean cycle resets the counter |
| `PollLoop.Poller.Loop` | src/harkeniq/agent.py:541-568 | over any cycles the guard never fires, the failure counter equals the length of the trailing run of failed cycles, and the loop stops only at a fault it does not catch |
| `Decisions.FirstDeciderWins` | src/harkeniq/agent.py:1121-1167 | over any run, cycles with their loads and saves included, in which no command-line decision falls inside a cycle, an action takes at most one decision and keeps the first, contradictory batches included |
| `Decisions.DecisionStaysOnTable` | src/harkeniq/agent.py:1121-1167 | while no cycle runs, the table also goes on showing that decision |
| `Decisions.Store.SyncDecisions` | src/harkeniq/agent.py:1134-1167 | load first, apply decisions to pending actions in order, save only if one was applied |
| `Decisions.Store.ApplyEach` | src/harkeniq/agent.py:1137-1165 | a batch applies in order and each action takes at most its first decision |
| `Decisions.CliDecidesOnce` | src/harkeniq/cli.py:820-843 | a command-line run decides a pending action once and leaves a decided one alone |
| `Decisions.SyncDecidesOnce` | src/harkeniq/agent.py:1121-1167 | a decision pass keeps the decided-once invariant and every decision already on record |
| `Decisions.ExecutedAgainIffReloaded` | src/harkeniq/agent.py:1538-1564 | an action a cycle executed is still APPROVED in the table after its save, so the next cycle executes it again, exactly when a decision-bearing pass ran between the cycle's load and save; a cycle that raises before its save always leaves it APPROVED |
| `Decisions.ExecutedTwice` | src/harkeniq/agent.py:1134-1136 | a concrete run in which one approved action is executed twice |
| `Decisions.DecisionInWindowSurvivesIffReloaded` | src/harkeniq/cli.py:820-843 | a command-line decision taken while a cycle executes survives the cycle's save exactly when a decision pass reloads the table after it; otherwise the action is PENDING again and takes the opposite decision |
| `Decisions.ExecutedAtMostOnce` | src/harkeniq/agent.py:1538-1564 | if decision-bearing passes fall between cycles and every cycle reaches its save, each action is executed at most once over any run |
| `Decisions.CliDecisionGoverns` | src/harkeniq/cli.py:820-843 | a command-line decision on a pending action takes effect: approved, the next cycle can start it; denied, no later run ever starts it |
| `Decisions.ProposalWaits` | src/harkeniq/actions/queue.py:46-66 | a proposal waits for a decision from the moment it is made, saved or not |
| `Decisions.PassDecisionGoverns` | src/harkeniq/agent.py:1134-1167 | of all the decisions a batch holds for a waiting action the first takes effect, and governs what follows in the same way |
| `Decisions.StartsAreApproved` | src/harkeniq/agent.py:1538-1564 | over any run, cycles, reloads and crashes included, an action not approved to begin with is started only if a decision approving it took effect |
| `Decisions.EndIsFinal` | src/harkeniq/actions/queue.py:68-88 | what the table shows denied, completed or failed stays so and is never started again, over any later run and any decisions |
| `Decisions.CrashedHasFailed` | src/harkeniq/state/checkpoint.py:401-446 | an action the table shows executing is recorded as failed by whatever reads the table next, and is never started again |
| `Decisions.AbortedStartsAgain` | src/harkeniq/agent.py:1538-1571 | a cycle that raises before its save leaves every action it had taken up for the next cycle to start |
| `Decisions.OutcomeIsRecorded` | src/harkeniq/agent.py:1538-1564 | without a reload the cycle's save records how each of its actions ended, completed, failed or refused, and the action is over |
| `Directives.KeysIdentifyProposals` | src/harkeniq/dispatch_idempotency.py:35-42 | two proposals share a key exactly when their ids differ in surrounding whitespace only; a blank id has none |
| `Directives.Node.ProcessDirectives` | src/harkeniq/agent.py:1171-1186 | each directive id not yet in flight is put in flight and starts one task, in delivery order |
| `Directives.NewInOnce` | src/harkeniq/agent.py:1180-1186 | repeats inside one delivery start one task |
| `Directives.ExecutedAtMostOnce` | src/harkeniq/dispatch_idempotency.py:12-47 | over any dispatch retries, lost acks, replicas and re-deliveries a proposal with an id is executed at most once |
| `Directives.AtMostOnceIffKeyed` | src/harkeniq/dispatch_idempotency.py:35-42 | the guarantee holds for exactly the proposals whose id is not blank |
| `Directives.EveryTaskReportsOnce` | src/harkeniq/agent.py:1188-1217 | each directive has at most one execution and one report, and exactly one report once its task ended without cancellation |
| `Directives.ReplayNamesTheHeldDirective` | services/site_manager/src/harkeniq_sm/directives.py:72-116 | an ack reads as a replay exactly when the Site Manager holds a directive for the same proposal and the same work; it names that one and nothing new is queued |
| `Directives.DispatchAnswers` | services/site_manager/src/harkeniq_sm/directives.py:72-116 | in every reachable state: nothing held for the proposal, the work is queued as asked under the new id the ack names; held for the same work, nothing is queued and the ack names it; held for other work, refused |
| `Directives.NewProposalRuns` | src/harkeniq/agent.py:1171-1217 | from every reachable state a proposal nothing is held for can be dispatched, delivered and executed, with the work it asked for |
| `Directives.KeyedRunsExactlyOnce` | src/harkeniq/dispatch_idempotency.py:12-47 | every proposal with an id has a run that executes its work, and no run executes it twice |
| `Directives.CancelIsFinal` | src/harkeniq/agent.py:1180-1188 | a cancelled task is over: no later delivery, however often, executes or reports it |
| `Reports.Reporter.ReportChanged` | src/harkeniq/agent.py:1104-1113 | one pass sends exactly the changed verdicts and caches exactly the acknowledged ones |
| `Reports.CacheIsLastAcknowledged` | src/harkeniq/agent.py:1104-1113 | over any history the cache holds each sensor's last acknowledged severity and consecutive acknowledged reports of a sensor differ |
| `Reports.AllAcknowledged` | src/harkeniq/agent.py:1104-1113 | after an all-acknowledged pass over agreeing verdicts the cache agrees with every one |
| `Reports.NothingToSend` | src/harkeniq/agent.py:1104-1113 | a pass sends nothing exactly when the cache knows every verdict, and then changes nothing |
| `Reports.QuietIffAgreeing` | src/harkeniq/agent.py:1104-1113 | after an all-acknowledged pass the next pass over the same verdicts is silent exactly when no sensor carries two severities |
| `Reports.PassMeaning` | src/harkeniq/agent.py:1104-1113 | verdict by verdict, wherever a list does not contradict it: sent exactly when not known, known afterwards exactly when known before or acknowledged, and so sent again for as long as it is not |
| `LogCursor.LogPoll.Poll` | src/harkeniq/agent.py:1008-1065 | one poll: alerts, cursor, alert severity and forwarded flag; an empty poll changes nothing |
| `LogCursor.AlertableIff` | src/harkeniq/agent.py:1015-1019 | an entry alerts exactly when it has an id and its severity reads critical or warning in any mix of cases |
| `LogCursor.WorstIff` | src/harkeniq/agent.py:1028-1032 | the alert is critical exactly when some new entry reads so; otherwise every one of them reads warning |
| `LogCursor.RememberedPieces` | src/harkeniq/agent.py:1015-1027 | an uncut cursor remembers exactly the comma-separated pieces of the ids |
| `LogCursor.RemembersExactlyIffCommaFree` | src/harkeniq/agent.py:1015-1027 | it remembers exactly the ids if and only if none holds a comma |
| `LogCursor.CutCursor` | src/harkeniq/agent.py:1027 | a cut cursor splits into a prefix of the id list and one prefix of the next id |
| `LogCursor.CursorIsLastNonEmpty` | src/harkeniq/agent.py:1009-1013 | after any polls the cursor is that of the last non-empty snapshot |
| `LogCursor.AlertsAreExactlyTheNewEntries` | src/harkeniq/agent.py:1008-1027 | over any history a poll alerts exactly the critical or warning entries absent from the last non-empty snapshot, for comma-free ids that fit |
| `LogCursor.CutOnlyAffectsTheTail` | src/harkeniq/agent.py:1008-1027 | for a longer join only ids past the cut can alert again and only an id equal to the partial piece can be wrongly suppressed |
| `Params.ValidateActionParams` | src/harkeniq/capabilities.py:367-398 | accepts exactly the payloads with declared keys, all required keys and fitting types; otherwise raises the least undeclared name, or else the least violated declaration |
| `Params.FindUndeclared` | src/harkeniq/capabilities.py:384-389 | the first pass stops at the first given name that is not declared |
| `Params.FindViolation` | src/harkeniq/capabilities.py:390-397 | the second pass stops at the first declaration the payload violates |
| `Params.VerdictUnique` | src/harkeniq/capabilities.py:367-398 | that description fixes the verdict and the parameter it names |
| `Params.OneParameterValidates` | src/harkeniq/capabilities.py:336-398 | for a class with one parameter: its value is accepted exactly when it fits the declared type (a boolean fits none), its absence exactly when it is not required, and any other name but the reason is refused as undeclared |
| `Params.ResolveActionParams` | src/harkeniq/capabilities.py:461-508 | the loop's refusals, in declaration order, then the final validation |
| `Params.CollectMeaning` | src/harkeniq/capabilities.py:480-502 | the loop passes exactly when nothing blocks, and then holds the component under every component-sourced name, the reason, and nothing else |
| `Params.ResolvesIff` | src/harkeniq/capabilities.py:461-508 | a payload comes back exactly when nothing required is unsuppliable or overlooked, the component is reported and fits its types, and the reason is absent or not blank; every payload validates |
| `Params.ContractAgreesIff` | src/harkeniq/capabilities.py:279-333 | the contract's agent_resolvable equals 'some evidence resolves it' for every class name, governed or not, exactly when a governed class has a table entry that names something unsuppliable or overlooks no required parameter |
| `Params.SilentUnavailableDisagrees` | src/harkeniq/capabilities.py:257-276 | a required unavailable parameter without a word on what is missing: reported resolvable, refused every time |
| `Params.RefusalNamesContractsParameterIff` | src/harkeniq/capabilities.py:481-499 | the refusal names the contract's parameter exactly when a component was reported or no component-sourced parameter precedes it |
| `Params.DeclaredTableAgrees` | src/harkeniq/autonomy/preconditions.py:502-617 | on the declared table contract and resolver agree everywhere, and exactly POWER_CAP_ADJUST, CONFIG_RESTORE, FIRMWARE_UPDATE and the ungoverned names are never resolved |
| `Identity.IdentifyOperation` | src/harkeniq/capabilities.py:401-440 | the loop builds the class and its sorted addressed values, joined |
| `Identity.IdentityIff` | src/harkeniq/capabilities.py:401-440 | for governed classes and separator-free addressed values two identities are equal exactly when class and all addressed values are, whatever other parameters hold |
| `Identity.IdentityReadsBack` | src/harkeniq/capabilities.py:401-440 | split at the separator the identity is the class, then each component-addressed name with its value, in increasing order of names; a missing value reads as an empty one |
| `Identity.UngovernedIsItself` | src/harkeniq/capabilities.py:423-432 | an identity is the bare class name exactly for an ungoverned class or one that addresses no component |
| `Identity.AnyValuesAreSafeIffOneAddressed` | src/harkeniq/capabilities.py:433-440 | values need no restriction at all exactly for classes that address at most one component |
| `Identity.PayloadInjective` | src/harkeniq/capabilities.py:443-456 | the pre-hash payload is injective in tenant, device and identity for separator-free tenant and device ids |
| `Identity.CollidesIffBarred` | src/harkeniq/capabilities.py:443-456 | among all triples a payload stands for one alone exactly when neither its tenant, nor its device, nor its identity holds the separator |
| `Provenance.CombineParts` | src/harkeniq/generation_provenance.py:128-159 | the loop with its early return computes the combination |
| `Provenance.ParseRoundTrip` | src/harkeniq/generation_provenance.py:61-66 | parse(to_dict(m)) gives m back exactly for well-formed markers, and only well-formed markers are ever parsed |
| `Provenance.CoversOnlyHeldSites` | src/harkeniq/generation_provenance.py:162-172 | a scoped reader is shown exactly what a stored marker pins to one site it holds |
| `Provenance.MembersDecide` | src/harkeniq/generation_provenance.py:128-159 | outside one fragile shape the result depends only on which markers occur |
| `Provenance.OrderMattersIffFragile` | src/harkeniq/generation_provenance.py:147-154 | order never matters exactly unless site markers without an id are mixed with markers of one single site |
| `Provenance.CombineIsJoin` | src/harkeniq/generation_provenance.py:128-159 | on well-formed markers combining is folding the two-marker join, and stays well-formed |
| `Provenance.JoinLaws` | src/harkeniq/generation_provenance.py:128-142 | the join is commutative, associative and idempotent, with unknown absorbing |
| `Provenance.CombineGroups` | src/harkeniq/generation_provenance.py:128-159 | combining two non-empty groups' results equals combining all parts |
| `Provenance.CombineIgnoresOrderAndRepetition` | src/harkeniq/generation_provenance.py:128-159 | on well-formed markers order and repetition change nothing |
| `Provenance.CoveredIffOneHeldSite` | src/harkeniq/generation_provenance.py:68-82 | the combination is covered for a scoped reader exactly when all parts name one site it holds, and then every part is covered |
| `Config.DeepMerge` | src/harkeniq/config.py:125-137 | the loop and its recursion compute the recursive merge, whatever order the items come in |
| `Config.LookupMerge` | src/harkeniq/config.py:125-137 | any path of a merged configuration: the override where it settles the path, both sections merged, the override's section, or the base |
| `Config.MergeTwice` | src/harkeniq/config.py:125-137 | the same override twice changes nothing more |
| `Config.CoversIff` | src/harkeniq/config.py:125-137 | an override erases a base completely exactly when it has all its keys all the way down |
| `Config.MergeAssociatesIff` | src/harkeniq/config.py:125-137 | grouping three layers either way agrees exactly when no path is a section below, a leaf in the middle and a section above that leaves keys uncovered |
| `Config.SameShapeAssociates` | src/harkeniq/config.py:125-137 | layers that agree on which paths are sections merge associatively |
| `Config.LoadConfig` | src/harkeniq/config.py:197-221 | the effective configuration is the four layers merged lowest first, absent ones skipped |
| `Config.HighestSettlingLayerDecides` | src/harkeniq/config.py:202-221 | at every path the highest layer that settles it decides if all above it are silent: command line over environment over file over defaults |
| `Config.DefaultsShowThrough` | src/harkeniq/config.py:202-221 | a path no later layer mentions keeps the default |
| `Urls.PathRoundTrip` | console-ui/src/routes.ts:112-114 | a segment percent-decodes back to the id it was built from, for every id |
| `Urls.SegChars` | console-ui/src/routes.ts:112-114 | a segment holds no delimiter and is empty only for the empty id |
| `Urls.DotSegmentIff` | console-ui/src/routes.ts:112-114 | a builder emits a dot segment exactly for the ids that are themselves one or two dots |
| `Urls.PathSplits` | console-ui/src/routes.ts:128-161 | every built path splits on the slash into exactly the segments of its page pattern |
| `Urls.ReadPathOfIff` | console-ui/src/routes.ts:128-161 | reading a built path gives the object back exactly when its ids are non-empty |
| `Urls.QueryString` | console-ui/src/routes.ts:117-126 | the loop sets the kept entries and serialises them; nothing kept gives the empty string |
| `Urls.EntryAdds` | console-ui/src/routes.ts:117-126 | an entry adds nothing when it is null, undefined or an empty text, and its key with its text otherwise, wherever it stands |
| `Urls.SetMeaning` | console-ui/src/routes.ts:117-126 | setting a name leaves it once with the value and every other pair where it was |
| `Urls.QueryRoundTrip` | console-ui/src/routes.ts:117-126 | parsing the query string gives the entries with exactly the null, undefined and empty ones dropped |
| `Urls.UrlRoundTrip` | console-ui/src/routes.ts:130-161 | a whole link is read back to its object and its kept query entries |
| `Urls.DistinctUrls` | console-ui/src/routes.ts:130-161 | distinct objects or kept entries never share a URL |
| `Permissions.ScopedReadsBack` | console-ui/src/permissions.ts:99-109 | adding a tenant prefix is undone by reading the tenant and stripping it |
| `Permissions.FirstIsLongest` | console-ui/src/permissions.ts:137-143 | the first governing key of a longest-first list is the one strictly longest governing key |
| `Permissions.GovernsIff` | console-ui/src/permissions.ts:137-143 | a key governs itself and everything under it, trailing slash included, and nothing that merely begins with its letters |
| `Permissions.RuleIsLongest` | console-ui/src/permissions.ts:137-143 | for any key order the rule is that of the longest segment-boundary key, and there is none exactly when no key governs |
| `Permissions.TenantDoesNotChangeRule` | console-ui/src/permissions.ts:96-103 | a tenant prefix on a bare path never changes its rule |
| `Permissions.TenantRootIsItsDashboard` | console-ui/src/permissions.ts:96-103 | a tenant's bare root reads as that tenant and is ruled on as its dashboard |
| `Permissions.DirectLookupAgreesIff` | console-ui/src/permissions.ts:86-95 | the sidebar's direct lookup equals the guard's rule exactly for the map's keys and for paths no key governs |
| `Permissions.SidebarAgreesWithGuard` | console-ui/src/permissions.ts:86-95 | a nav entry on a map key and its page admit the same users inside any tenant |
| `Permissions.AdmitsExactlyThoseMeant` | console-ui/src/permissions.ts:85-94 | on the bare path and inside any tenant the guard admits exactly the signed-in users the longest governing key is meant for: super-admins, platform users, or holders of its permission |
| `Permissions.OpenIffUngoverned` | console-ui/src/permissions.ts:85-94 | a path is open to someone not signed in exactly when no key governs it, and then to everyone |
| `Permissions.GrantingLosesNothing` | console-ui/src/permissions.ts:75-94 | granting permissions loses access to no path and gains it only where the rule names one of them |
| `Permissions.MissingKeyDisagrees` | console-ui/src/permissions.ts:63-73 | a path under a governing key but without its own is shown to everyone and refused on the page |
| `Permissions.SettlesInTwo` | console-ui/src/App.tsx:71-78 | from every path every signed-in user with a clean tenant id reaches a served route in at most two navigations, for any route table with the two homes |
| `Permissions.SignInLeadsHome` | console-ui/src/App.tsx:80-116 | the root and the sign-in pages take every such user home |
| `Permissions.SettlesIffHomeServed` | console-ui/src/permissions.ts:120-133 | every tenant user, whatever the id, settles from every path in at most two navigations exactly when the user's own dashboard is served where a navigation there lands |
| `Permissions.HomeServedIff` | console-ui/src/permissions.ts:120-133 | for an id without `?` and `#` that is so exactly when all its slash-separated pieces are non-empty and the piece after the first (the dashboard, if there is none) is a page that takes the rest |
| `Permissions.UnservedHomeNeverSettles` | console-ui/src/permissions.ts:120-133 | otherwise no number of navigations from there settles |
| `Permissions.SettlesIffClean` | console-ui/src/permissions.ts:120-133 | among slash-free ids: exactly those without `?` and `#` |
| `Permissions.TwoPartTenantSettlesIff` | console-ui/src/permissions.ts:120-133 | among ids of two parts: exactly those whose second part is a page that takes one more segment |
| `Permissions.DeclaredRoutesSettle` | console-ui/src/App.tsx:97-204 | the declared routes are such a table, so both hold of them |
| `Tickets.WritesInOrder` | console-ui/src/useDataState.ts:48-74 | in every interleaving writes come in strictly increasing ticket order, so each ticket writes at most once, and after a subject's effect nothing fetched for an earlier subject is written |
| `Tickets.OnlyNewestWrites` | console-ui/src/useDataState.ts:54-66 | an answer is written exactly when its ticket is the newest, and is for the subject on screen once its effect has run |
| `Tickets.RefreshSupersedes` | console-ui/src/useDataState.ts:48-74 | a refresh, or the effect of a changed render, supersedes every request open before it: none of them is written in any later run |
| `Tickets.ChangedRenderIsNew` | console-ui/src/useDataState.ts:68-74 | a changed render is for a subject nothing was fetched or written for and asks for its effect; an unchanged one changes nothing |
| `Tickets.EffectStartsOver` | console-ui/src/useDataState.ts:68-74 | an effect empties the snapshot and opens a request for the subject on screen exactly when the hook is enabled |
| `Tickets.SnapshotIsReplayed` | console-ui/src/useDataState.ts:54-74 | the snapshot is the replay of the writes since the last subject change |
| `Tickets.SnapshotMeaning` | console-ui/src/viewModel/dataState.ts:91-100 | data is that of the last success however many failures follow, the failure that of the last counted attempt, and a 401 leaves no trace |
| `Tickets.ClassificationIff` | console-ui/src/viewModel/dataState.ts:63-74 | each failure is told as denied, not found, refused or unavailable exactly for its answers; the end of the session tells nothing |
| `Tickets.DisabledStaysInitial` | console-ui/src/useDataState.ts:54-56 | while disabled no request is made and the snapshot stays initial whatever late answers arrive |
| `Tickets.DisablingIsDormant` | console-ui/src/useDataState.ts:70-74 | the effect of a disabled render brings the hook there from any reachable state |
| `Tickets.StaleRefreshRequests` | console-ui/src/useDataState.ts:54-57 | a refresh kept from an enabled render still opens a request on a disabled hook |
| `Tickets.Hook.Refresh` | console-ui/src/useDataState.ts:54-57 | a refresh takes a fresh ticket for the latest rendered fetcher, or does nothing when its closure is disabled |
| `Tickets.Hook.SubjectEffect` | console-ui/src/useDataState.ts:70-74 | the effect takes a ticket, empties the snapshot and refreshes |
| `Tickets.Hook.Settle` | console-ui/src/useDataState.ts:57-65 | an answer writes only under its own newest ticket |
| `Overlays.Document.OpenOverlay` | console-ui/src/a11y/overlay.ts:57-63 | opening pushes the element, remembers the opener and moves focus |
| `Overlays.Document.CloseOverlay` | console-ui/src/a11y/overlay.ts:92-101 | closing removes the element's last occurrence and restores a still connected opener |
| `Overlays.CloseMirrorsIff` | console-ui/src/a11y/overlay.ts:92-96 | closing an overlay keeps the stack equal to the open overlays exactly when nothing else was opened between it and the last opening of its element |
| `Overlays.ClosesMirrorIff` | console-ui/src/a11y/overlay.ts:92-96 | every order of closes keeps it so exactly when no element is open on both sides of a different one |
| `Overlays.StackIsOpened` | console-ui/src/a11y/overlay.ts:57-101 | for any opens and closes that never make such a page the stack is exactly the open overlays in opening order |
| `Overlays.ExactlyOneAnswers` | console-ui/src/a11y/overlay.ts:37-39 | while anything is open the overlay opened last answers keys, and alone exactly when its element is open once |
| `Overlays.NestedRestoresFocus` | console-ui/src/a11y/overlay.ts:92-101 | whatever is properly nested inside, closing an overlay puts focus where it was before it opened, if still attached, and leaves the same overlays open |
| `Overlays.AttachedAsLastLeft` | console-ui/src/a11y/overlay.ts:92-101 | over any run an element is attached exactly as the last step about it left it: overlays attach and detach nothing |
| `Overlays.GoneOpenerLeavesFocus` | console-ui/src/a11y/overlay.ts:97-101 | an opener that went away is not focused again: closing leaves focus where it was last moved to |
| `Overlays.LastClosedDecidesFocus` | console-ui/src/a11y/overlay.ts:92-101 | after closes in any order focus is on the opener of the overlay closed last |
| `Overlays.FocusReturnsIff` | console-ui/src/a11y/overlay.ts:57-101 | open any overlays, moving focus about among them, and close them all in any order: focus is back where it was before the first open exactly when the overlay opened first closes last |
| `Overlays.TabStaysInside` | console-ui/src/a11y/overlay.ts:65-90 | Tab never takes focus out of the overlay, brings it back in from outside, and Shift+Tab undoes it between items |
| `Overlays.TabEntersAtTheNearEnd` | console-ui/src/a11y/overlay.ts:72-90 | from outside or from the overlay itself Tab comes to the first item and Shift+Tab to the last; without items the overlay takes focus |
| `Overlays.BackTabGoesRound` | console-ui/src/a11y/overlay.ts:72-90 | Shift+Tab goes round the other way |
| `Overlays.TabGoesRound` | console-ui/src/a11y/overlay.ts:65-90 | as many Tab presses as there are items visit each once and come back |
| `Correlation.FanThermalCorrelation` | src/harkeniq/demo.py:417-443 | the last matching baseline of each kind, the last min(length, 10) samples, none below four or without spread, otherwise the |r| of the samples, which lies in [0, 1] |
| `Correlation.CoefficientIsRoot` | src/harkeniq/demo.py:442-443 | the reported figure is the nonnegative root of the squared coefficient |
| `Correlation.DeviationsCancel` | src/harkeniq/demo.py:436-437 | the deviations are taken about the average: they add up to zero |
| `Correlation.CoefficientFromSums` | src/harkeniq/demo.py:436-443 | the squared coefficient equals the one of the raw sums, (n Sxy - Sx Sy)^2 / ((n Sxx - Sx^2)(n Syy - Sy^2)), which names no mean and no deviation |
| `Correlation.LastFanIff` | src/harkeniq/demo.py:423-427 | the fan series is that of the last fan baseline, none exactly when there is no fan baseline |
| `Correlation.LastThermalIff` | src/harkeniq/demo.py:423-429 | the inlet series is that of the last inlet baseline, none exactly when there is none |
| `Correlation.FanIdIff` | src/harkeniq/demo.py:426 | a fan baseline is one whose id is the prefix with the fan's name anywhere after it |
| `Correlation.ThermalIdIff` | src/harkeniq/demo.py:428 | a thermal baseline is one whose id is the prefix with the inlet's name anywhere after it |
| `Correlation.OlderSamplesDoNotMatter` | src/harkeniq/demo.py:432-436 | samples older than the latest ten change nothing |
| `Correlation.CauchySchwarz` | src/harkeniq/demo.py:437-439 | the squared covariance sum is at most the product of the squared-deviation sums, with equality exactly for collinear series |
| `Correlation.CoefficientInUnitInterval` | src/harkeniq/demo.py:437-443 | the squared coefficient lies in [0, 1] and is 1 exactly for collinear deviations |
| `Correlation.ReportedInUnitInterval` | src/harkeniq/demo.py:442-443 | so the reported coefficient lies in [0, 1] |
| `Correlation.CoefficientIsSymmetric` | src/harkeniq/demo.py:437-443 | exchanging the series changes nothing |
| `Correlation.CoefficientIgnoresShift` | src/harkeniq/demo.py:436-443 | shifting either series changes nothing |
| `Correlation.CoefficientIgnoresScale` | src/harkeniq/demo.py:436-443 | scaling either series by a non-zero factor changes nothing |
| `Correlation.NoneIffConstant` | src/harkeniq/demo.py:440-441 | there is no coefficient exactly when a series is constant |

## Left out

- Lease parsing and signatures: an acknowledgement carries empty, invalid or parsed lease bytes; an
  exception other than the one for invalid leases is not modelled.
- Clocks: a decision reads its three times as inputs, wall time does not step back inside one
  decision, and the limiter's clock never goes back.
- Protocols, gRPC, UDP and device input and output: results that succeed or fail.
- `AgentRuns`: process restarts, and directive tasks other than gated actions (skill installs have no
  await inside). The executor is present from the start (before `start()` there is no allow list to
  consult). Verification scheduling after an accounted success changes no modelled state.
- Decisions.FirstDeciderWins: takes each load-apply-save as one step and checkpoint errors inside it
  as not happening; a table error in the middle of a pass is not modelled.
- Directives.ExecutedAtMostOnce: for one node process; after a restart the in-flight set is empty and
  the Site Manager's own delivery states decide, which are not part of this model.
- LogCursor.LogPoll.Poll: lower-casing and whitespace are ASCII only; the alert text is not modelled.
- Params: the two library readers behind the type check (integers and JSON objects in text) are
  arbitrary predicates; refusal texts are reduced to the parameter they name; a table whose names
  repeat is validated but not resolved by the lemmas, which need distinct names.
- Identity.IdentifyOperation: values are their printed texts, so values that print alike are one; a
  component name declared twice for a class appears once; the digest of the payload is left out.
- Provenance: the constructors' refusal of an empty site id and conversion of non-string ids.
- Config.LoadConfig: reading the file and extracting the environment layer (names and coercion) are
  its inputs.
- Urls: texts are their UTF-8 bytes (a lone surrogate, which has none, makes the original throw);
  numeric query values are their printed text; object entries come in a given order; the operational
  agents list and campaign list take no query.
- Permissions: case-insensitive matching and history encoding of the router; what a page does once
  served; redirects of users who are not signed in.
- Tickets: React's own scheduling beyond 'an effect runs some time after its render'; polling timers
  and visibility are calls at any time.
- Overlays.NestedRestoresFocus: an element asked to take focus takes it; focusability is not modelled.
- Overlays.FocusReturnsIff: the overlays are all opened before the first closes; between the first close
  and the last nothing else moves focus.
- Overlays.TabGoesRound: the browser's own Tab move goes to the neighbouring item.
- Correlation: reals instead of floats, so rounding is not modelled; the square root is a parameter
  that meets the definition of one for positive numbers.
- Left out because they would only add easy members: title and status texts, document titles,
  `combineStatuses`, capability declarations, health summaries, inventory and resource loops, peer
  tiers, quorum claims, firmware and verification schedules, printing.
