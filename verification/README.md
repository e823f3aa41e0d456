# Ravn: the remediation pipeline, verified

Ravn heals a fleet of hosts. The control plane matches a fault against a catalogue of templates,
asks a policy engine whether it may act, signs a command and queues it. The unprivileged agent pulls
the command, verifies it, writes its id to an on-disk ledger and hands it to the privileged actuator,
which verifies it again, checks preconditions, runs the steps, polls the post-condition and, if that
fails, rolls back. Around this path stand the algorithms it depends on: a wildcard matcher, a circuit
breaker, a placeholder scanner, a markdown knowledge base, caches, limiters and an outbox.

This project models that path and those algorithms in Dafny and proves what they promise over every
input and every run. `dafny verify dfyconfig.toml` checks all of it.

## How the model is organised

| file | what it models |
|---|---|
| `Schema.dfy`, `Options.dfy`, `Sets.dfy`, `Text.dfy`, `Lines.dfy`, `Decimal.dfy` | wire types, and the string and number primitives of the standard library |
| `Glob.dfy`, `Policy.dfy` | the two-pointer matcher; first-match rules, guards and the pruned sliding-window breaker |
| `Placeholders.dfy`, `Templates.dfy` | the two `{{name}}` scanners; validation, parameter resolution, command building |
| `Crypto.dfy`, `Rotation.dfy` | ideal signatures, keyrings, and key rotation across control plane, agent and actuator |
| `Store.dfy`, `CommandQueue.dfy`, `Server.dfy`, `ServerRuns.dfy` | records and dedup cache, queue, request handlers, and whole runs of the control plane with restarts |
| `Agent.dfy`, `Actuator.dfy`, `Pipeline.dfy` | the ledger protocol with crashes, the execution protocol, and the three parties together |
| `Frontmatter.dfy`, `RoundTrip.dfy`, `Slugs.dfy`, `Knowledge.dfy` | the knowledge base's text format, its round trip, its file names, and runs of records on files |
| `LogDedup.dfy`, `RateLimit.dfy`, `NodeConditions.dfy`, `Outbox.dfy`, `OutboxRuns.dfy`, `Inference.dfy` | log deduplication, token bucket, node conditions, bounded outbox, truncated JSON |

Objects that the source updates in place are classes whose methods are proved against a function on
values; the theorems are about that function and about runs of it. What such a function makes of its
inputs is stated once more without it, field by field and case by case. A run is a value that lists its
events, latest outermost, so a theorem about every run is an induction over it. Clock readings,
generated ids, executor answers, database and disk outcomes are parameters of the events and range
over everything.

## Where the code keeps less than it says

- The wildcard matcher compares bytes before it looks for a star, so a `*` in the *text* can make it
  miss a match. It is right about a text for all patterns exactly when the text has no `*`.
- A breaker window longer than chrono can represent counts as no window at all. The budget of the
  configured window is kept in every run with a monotone clock exactly when the window can be
  represented or the settings grant nothing.
- Loading templates does not check that ids are unique, and approval looks a template up by id. The
  lookup finds the matched template, for every template, exactly when equal ids mean equal templates.
- The approval handler queues the command first and ignores whether recording it worked. Over every
  run with fresh ids each proposal has at most one command queued exactly when none whose approval was
  not written is approved again; what `OneCommandPerProposal` promises beyond that, the command on the
  record, needs every approval to be written.
- Key ids are the first 16 characters of a key's text: two keys share an id exactly when they agree on
  those.
- Rejection has no guard on the record's state and does not recall a queued command. A decided record
  changes its decision exactly when a rejection takes effect on it whose user, time or reason differs
  from what it says, or which finds it approved.
- The breaker's log and the queue live in memory. After restarts the engine answers as a breaker that
  remembered all lives would, exactly unless the window of the present life is not spent and that of
  all lives together is; over a whole run a window holds at most one budget per life. Commands are
  conserved over a whole run exactly when every restart found nothing waiting to be pulled.
- A ledger file that cannot be read at start-up counts as empty. Over every run, between two hand-overs
  of one command id lies a restart that could not read the ledger; and after each such restart a
  redelivered command that still verifies and can be recorded is sent again. Likewise a knowledge-base
  file that cannot be read is started over.
- A keyring refresh swaps the ring even when it could not be persisted and does not retry. On a command
  whose reload reads the file, agent and actuator give every envelope the same verdict exactly when the
  last refresh that changed the agent's ring since enrollment or the agent's last restart wrote it or
  found it pinned already, or, if there was none, that restart could read the file or lost nothing by
  not reading it. When the reload cannot read the file, they do exactly when the agent is on the ring
  the actuator last read.
- The comment on `slug` claims distinct slugs for distinct signatures. Two signatures share a file
  exactly when they have the same words, that is the same runs of letters, digits, dots and
  underscores up to case; workload `b-c` in namespace `a` and workload `c` in namespace `a-b` do. The
  knowledge-base theorems therefore count the records of all signatures that share a file.
- A full outbox whose clock stepped back prunes the row it just stored; a new row survives exactly when
  there is room or the head is not younger.
- A delete goes by event id. A message can be deleted unpublished if its id was used before for another
  one; over all runs this cannot happen exactly when each id stands for one message or the ids are too
  few for anything to be pruned.
- Condition keys join a node's name and a condition with a slash. They keep nodes apart, over all runs,
  exactly when no name followed by a slash starts another one followed by a slash; Kubernetes names
  hold no slash at all.
- Substituted values can leave a placeholder behind. They cannot, for any template text, exactly when
  no referable value contains `{{` or ends in `{`.

## Model

| member | source | states |
|---|---|---|
| Glob.GlobMatch | crates/ravn-server/src/policy.rs:233-258 | the loop terminates and decides the literal-first meaning on every pattern and text, and the plain wildcard meaning on texts without `*` |
| Glob.FaithfulExactlyOnStarFreeTexts | crates/ravn-server/src/policy.rs:233-258 | the matcher is right about a text under every pattern exactly when the text has no `*` |
| Glob.NeverAcceptsTooMuch | crates/ravn-server/src/policy.rs:233-258 | on every text whatsoever, what is accepted does match |
| Glob.WildcardsAre | crates/ravn-server/src/policy.rs:233-258 | a plain text followed by `*` accepts exactly the texts it starts, on its own only itself, and `?` exactly one byte |
| Glob.LaterStartStaysBehind | crates/ravn-server/src/policy.rs:245-251 | why remembering only the last star loses nothing: a match started later never falls behind the literal run in hand |
| Glob.NewStarSubsumesOld | crates/ravn-server/src/policy.rs:241-251 | once a new star is met, any match an earlier star could still give is one the new star gives |
| Policy.DecisionNeedsFirstMatchingRule | crates/ravn-server/src/policy.rs:114-125 | default-deny: anything but `Approve` comes from a rule that applies with none before it, and the first applicable rule decides |
| Policy.DecisionIsThatOfTheFirstFit | crates/ravn-server/src/policy.rs:71-120 | on a host name without `*` the decision is that of the first rule for the call's very tier whose pattern, if any, matches as a wildcard, and `Approve` if there is none |
| Policy.OnlyAFitDecides | crates/ravn-server/src/policy.rs:71-120 | on every host name, a rule that decides is one for the call's tier and its pattern, if any, does match |
| Policy.SpanIsTheWindow | crates/ravn-server/src/policy.rs:202-222 | the window that counts is the configured one up to the longest chrono can represent, and none beyond |
| Policy.CircuitBreaker.Tripped | crates/ravn-server/src/policy.rs:215-222 | prunes the pair's log to the window, touches no other pair, and says whether the budget is spent |
| Policy.CircuitBreaker.Record | crates/ravn-server/src/policy.rs:224-228 | appends one execution to the pair's log and touches no other |
| Policy.PolicyEngine.Evaluate | crates/ravn-server/src/policy.rs:158-193 | answer and new log are those of the specification step, kill switch and dangerous-tier guard included |
| Policy.PrunedLogMatchesHistory | crates/ravn-server/src/policy.rs:215-228 | over every run with a monotone clock the pruned log agrees with the full history on everything a later call can count |
| Policy.EngineRefinesHistory | crates/ravn-server/src/policy.rs:158-228 | after every run the engine answers every call as a breaker with the full, unpruned history would |
| Policy.RateBound | crates/ravn-server/src/policy.rs:158-228 | no window of the configured length, wherever it ends, holds more than `max_auto` automatic executions of one host and template; a length beyond chrono's counts as none |
| Policy.BudgetIsKeptExactlyWhen | crates/ravn-server/src/policy.rs:202-228 | the settings under which every run keeps the budget of the configured window: exactly those whose window chrono can represent, and those that grant nothing; otherwise a burst exceeds it |
| Policy.CountInIsTheNumber | crates/ravn-server/src/policy.rs:215-222 | what these bounds count is the number of executions later than the window's start and no later than its end |
| Policy.TripsExactlyWhenBudgetIsSpent | crates/ravn-server/src/policy.rs:158-193 | in every run, `Auto` and the trip are told apart exactly by whether the budget of the window is spent, given rule and guards allow it |
| Policy.RateBoundNeedsMonotoneClock | crates/ravn-server/src/policy.rs:215-228 | a concrete run with a clock that steps back exceeds the bound |
| Policy.LogIsRightExactlyWhenNothingForgottenMatters | crates/ravn-server/src/policy.rs:215-228 | whatever the clock does, the pruned log agrees with the full history on the window exactly when nothing it has forgotten lies in it |
| Placeholders.ResolveStr | crates/ravn-core/src/remediation.rs:397-413 | the loop computes the substitution function, on every text, error included |
| Placeholders.PlaceholdersInStr | crates/ravn-core/src/remediation.rs:444-454 | the second, separate loop computes the names function |
| Placeholders.ReferenceIsReplaced | crates/ravn-core/src/remediation.rs:397-454 | `literal{{name}}rest` resolves to the literal, the value of the trimmed name and what the rest resolves to, or fails with that name; the collected names are that name and those of the rest |
| Placeholders.LiteralStays | crates/ravn-core/src/remediation.rs:397-413 | a text without `{{` stays as it is |
| Placeholders.UnclosedStays | crates/ravn-core/src/remediation.rs:397-413 | so does a text whose first `{{` is never closed |
| Placeholders.ScannersAgree | crates/ravn-core/src/remediation.rs:397-454 | resolving succeeds exactly when every collected name has a value, and otherwise reports the first collected name without one |
| Placeholders.OutputIsLiteral | crates/ravn-core/src/remediation.rs:397-413 | with inert values the output has no placeholder and resolving it again, under any values, changes nothing |
| Placeholders.BraceFreeValuesLeaveNothing | crates/ravn-core/src/remediation.rs:397-413 | the same for values that contain no `{` at all |
| Placeholders.NoResidueExactlyWhenInert | crates/ravn-core/src/remediation.rs:397-413 | a set of values leaves no placeholder in any text exactly when each value that a text can refer to is inert |
| Templates.ValidatesExactlyWhenWellFormed | crates/ravn-core/src/remediation.rs:243-275 | validation accepts exactly the templates with steps, read-only checks and declared placeholders only |
| Templates.SoundExactlyWhen | crates/ravn-core/src/remediation.rs:417-442 | the names checked for a capability are those of every field it carries, kind by kind |
| Templates.ResolvedCapability | crates/ravn-core/src/remediation.rs:99-148 | with all names given, resolving fails only on a name that does resolve to a malformed identifier; it keeps the kind of operation and puts each resolved string in its own field, kind by kind |
| Templates.ResolveParamsLoop | crates/ravn-server/src/remediation.rs:365-383 | the loop with its early returns computes the resolution function, of which the next two rows say what it gives |
| Templates.ResolvedParamsAreTheFields | crates/ravn-server/src/remediation.rs:365-383 | resolution fails exactly when some declared field is absent or is to name a Kubernetes object and cannot; otherwise each name has the value of the field declared for it |
| Templates.ResolvedParamsAreDeclared | crates/ravn-server/src/remediation.rs:365-383 | a successful resolution has a value for exactly the declared parameters |
| Templates.ValidatedTemplateBuilds | crates/ravn-server/src/remediation.rs:416-467 | for a validated template and its resolved parameters, building never misses a value; steps, checks and expectations are the template's in order, checks stay read-only |
| Crypto.JsonRoundTrip | crates/ravn-crypto/src/lib.rs:216-246 | publishing and parsing a keyring gives it back exactly when its default key is in it |
| Crypto.SignedVerifiesExactlyWhenTrusted | crates/ravn-crypto/src/lib.rs:70-118 | a signed envelope verifies exactly where the ring files that very key under its id, up to and including the expiry |
| Crypto.AcceptedWasSigned | crates/ravn-crypto/src/lib.rs:104-129 | whatever verifies was signed, over its whole payload, by the key the `kid` names or by the default key |
| Crypto.KeysShareAnIdExactlyWhen | crates/ravn-crypto/src/lib.rs:34-41 | two keys share an id exactly when they are the same text or agree on their first 16 characters |
| Crypto.DocumentIsRingExactlyWhen | crates/ravn-crypto/src/lib.rs:224-246 | a document is a ring exactly when all its keys decode and its default is among them, and then of just those keys, ids and default |
| Crypto.ComparisonDecidesExactlyWhenIdsAreUnique | crates/ravn-agent/src/remediation.rs:365-372 | over any set of keys, comparing ids and default decides equality of all rings exactly when no two of the keys share an id |
| Crypto.Ring.Insert | crates/ravn-crypto/src/lib.rs:166-170 | in place: files the key under its id, leaves every other key and the default alone |
| Crypto.Ring.SetDefault | crates/ravn-crypto/src/lib.rs:175-182 | in place: moves the default only to a key that is in the ring, and says whether it did |
| Crypto.LoadOrGenerateWithPrevious | crates/ravn-server/src/command.rs:80-107 | the published ring holds the active key as default and every previous one; one unreadable key fails the start |
| Crypto.OverlapTrustsBoth | crates/ravn-server/src/command.rs:80-107 | during the overlap, commands of the new key and of every previous one verify |
| Rotation.AgentTrust.RefreshKeyring | crates/ravn-agent/src/remediation.rs:335-380 | one refresh: ring and pinned file afterwards, for every published document and outcome of the write |
| Rotation.ActuatorTrust.ReloadKeyring | crates/ravn-actuator/src/lib.rs:469-489 | one reload: an unusable file changes nothing, a usable one replaces the ring |
| Rotation.DocumentIsTakenExactlyWhen | crates/ravn-agent/src/remediation.rs:36-57 | refresh and reload take a document exactly when it has keys, all decode, its default is among them, and ids or default differ from the ring held; a restart takes it exactly when it is fit, else the single key |
| Rotation.EveryStateIsSound | crates/ravn-agent/src/remediation.rs:335-380 | every reachable ring, on every party and on disk, has keys under their own ids and a default among them |
| Rotation.RotationAgreement | crates/ravn-actuator/src/lib.rs:147-175 | over every run of restarts with new keys, refreshes and reloads, earlier failed reloads included, in which the agent's writes and start-up reads succeed: on a command whose reload reads the file, what `ravnd` accepts the actuator accepts while it has not expired |
| Rotation.AgreementExactlyWhenPinsHold | crates/ravn-actuator/src/lib.rs:469-489 | over every run, failed writes and reads included, `ravnd` and the actuator give every envelope the same verdict exactly when: if the reload reads the file, the last refresh that changed the agent's ring since enrollment or its last restart wrote it or found it pinned already, or without one, that restart could read the file or lost nothing by it; if the reload cannot, the agent is on the ring the actuator last read |
| Rotation.RefreshLeavesItPinnedExactlyWhen | crates/ravn-agent/src/remediation.rs:335-380 | from any state: after a refresh the agent is on what is pinned exactly when it changed nothing and was so before, or wrote the change, or found it pinned already |
| Rotation.FailedPersistIsNotRetried | crates/ravn-agent/src/remediation.rs:349-380 | after a failed write, further refreshes of the same ring leave the file alone |
| Rotation.NewKeyIsKnownExactlyWhen | crates/ravn-actuator/src/lib.rs:469-489 | after a rotation and a refresh, a command of the new key is dispatched by the agent at once, and accepted by the actuator exactly when the refresh was written and the reload could read it |
| Rotation.RestartRestoresAgreement | crates/ravn-agent/src/remediation.rs:36-57 | a restart of the agent and a reload of the actuator that both read the file bring both to the same ring, whatever failed before |
| Store.RemediationStore.constructor | crates/ravn-server/src/remediation.rs:511-525 | the cache is rebuilt as the keys of the pending rows |
| Store.RemediationStore.Insert | crates/ravn-server/src/remediation.rs:530-554 | new rows, new cache and answer, for each outcome of the database call; which proposals are raised is said by `RaisedExactlyWhenNotAsked` |
| Store.RemediationStore.InsertAutoApproved | crates/ravn-server/src/remediation.rs:559-594 | the same for a record written already approved; the cache is not touched |
| Store.RemediationStore.Approve | crates/ravn-server/src/remediation.rs:620-649 | only a pending row changes; the key leaves the cache only if the row was seen pending and the update confirmed |
| Store.RemediationStore.Reject | crates/ravn-server/src/remediation.rs:652-675 | the same, with user, time and reason, and with no guard on the row's state |
| Store.RemediationStore.RecordResult | crates/ravn-server/src/db.rs:739-771 | the result goes to the rows with that command id and changes nothing else |
| Store.KeysTellRequestsApart | crates/ravn-server/src/remediation.rs:476-490 | two proposals share a dedup key exactly when template, agent and parameters are equal |
| Store.RaisedExactlyWhenNotAsked | crates/ravn-server/src/remediation.rs:530-554 | after any run without drift, an acknowledged insertion under a new id adds the pending row exactly when no pending row has the same template, agent and parameters, and changes nothing else |
| Store.AutoApprovedExactlyWhenNotAsked | crates/ravn-server/src/remediation.rs:559-594 | the same for a proposal recorded as approved by policy, with its command and signature |
| Store.ApprovalWritesPendingRowOnly | crates/ravn-server/src/db.rs:671-707 | an approval that takes effect writes approver, command and signature on that row alone, and only while it is pending |
| Store.KeepsInSyncExactlyWhen | crates/ravn-server/src/remediation.rs:530-675 | from agreement of cache and table, an operation keeps it exactly when it is none of the listed drifting ones |
| Store.KeepsCovered | crates/ravn-server/src/remediation.rs:530-675 | from a cache that covers all pending rows, one per key, an operation keeps that exactly when it is not a lost insertion |
| Store.CacheIsPendingKeys | crates/ravn-server/src/remediation.rs:502-525 | in every run without a drifting operation the cache is the set of keys of pending rows, one row per key, and rebuilding it at restart changes nothing |
| Store.OnePendingRowPerKey | crates/ravn-server/src/remediation.rs:530-675 | even with failing reads and updates no two rows with one key are pending together, unless an insertion took effect unacknowledged; a restart repairs the cache |
| Store.LostInsertDuplicates | crates/ravn-server/src/remediation.rs:530-554 | such a lost insertion does lead to two pending rows with one key |
| Store.DecidedKeepsItsCommand | crates/ravn-server/src/db.rs:680-771 | a decided row never turns pending again and keeps proposal, command and signature under every operation and outcome |
| Store.DecisionChangesExactlyWhenRejected | crates/ravn-server/src/db.rs:680-771 | under every operation and outcome, a decided row gets another decision exactly by a rejection that took effect and differs from it in kind, user, time or reason |
| Store.RejectionIsUnguarded | crates/ravn-server/src/db.rs:712-735 | every rejection that takes effect, acknowledged or not, overwrites the decision, and for a decided row leaves the cache alone |
| CommandQueue.CommandQueue.Enqueue | crates/ravn-server/src/command.rs:182-189 | appends to the target agent's queue and to no other |
| CommandQueue.CommandQueue.TakeFor | crates/ravn-server/src/command.rs:192-198 | hands over and empties exactly that agent's queue |
| CommandQueue.Conserved | crates/ravn-server/src/command.rs:182-198 | over every run, what an agent took followed by what waits for it is what was put in for it, in order |
| Server.MatchEventLoop | crates/ravn-server/src/remediation.rs:275-304 | the first template whose source and conditions all hold, or nothing exactly when there is none |
| Server.PreparedExactlyWhen | crates/ravn-server/src/remediation.rs:277-383 | nothing is prepared exactly when no template fits the fault's source and fields or the first that does lacks a parameter; otherwise it is that template, each parameter with the fault's own field as value |
| Server.GetIsFirst | crates/ravn-server/src/remediation.rs:307-309 | lookup by id finds the first template with that id, or nothing exactly when there is none |
| Server.LookupFindsTheMatchedTemplateExactlyWhen | crates/ravn-server/src/remediation.rs:307-309 | lookup by id returns the matched template for every template exactly when equal ids mean equal templates |
| Server.Server.PrepareInner | crates/ravn-server/src/remediation.rs:721-767 | matching, parameters, policy and then nothing, a pending record or an automatic execution: the whole new state |
| Server.Server.AutoExecute | crates/ravn-server/src/remediation.rs:803-835 | the command is queued only after its record was acknowledged |
| Server.Server.ApproveRemediation | crates/ravn-server/src/api.rs:459-499 | pending check, lookup, build, queue, record, in that order; not found, conflict, build failure or approval with its command id, each exactly when it applies |
| Server.Server.RejectRemediation | crates/ravn-server/src/api.rs:503-517 | found exactly when a row with that id exists and the update was acknowledged |
| Server.Server.GetCommands | crates/ravn-server/src/api.rs:398-403 | a pull returns what waits for that agent |
| Server.Server.PostCommandResult | crates/ravn-server/src/api.rs:407-425 | the report goes to the records of its command and changes nothing else |
| ServerRuns.OneCommandPerProposal | crates/ravn-server/src/api.rs:459-499 | over every run, restarts included, each proposal has at most one command ever queued and it is the one on its record, as long as ids are fresh and no approval fails to be written |
| ServerRuns.OncePerProposalExactlyWhen | crates/ravn-server/src/api.rs:459-499 | over every run with fresh ids, restarts included, each proposal has at most one command ever queued exactly when no proposal whose approval was not written was approved again |
| ServerRuns.FaultLeadsTo | crates/ravn-server/src/remediation.rs:721-835 | the records and the queued command that follow from a fault, in full: which proposal is raised or recorded as approved, for which agent, host and template, and when none is |
| ServerRuns.ApprovalLeadsTo | crates/ravn-server/src/api.rs:459-499 | an approval's command goes to the agent of the pending proposal, from the first template with its id, in the approver's name, at the end of that agent's queue, and on the record if that takes it |
| ServerRuns.ApprovingTwiceQueuesTwiceExactlyWhenLost | crates/ravn-server/src/api.rs:482-496 | for two approvals in a row: the second queues a second command exactly when the first was not written |
| ServerRuns.ApprovedExactlyWhenQueued | crates/ravn-server/src/api.rs:459-499 | an approval is confirmed with a command id exactly when a command with that id was queued, and not found exactly when no pending row was seen |
| ServerRuns.CommandsStayApart | crates/ravn-server/src/db.rs:641-707 | with fresh command ids no two records ever name the same command |
| ServerRuns.ResultClosesItsProposal | crates/ravn-server/src/db.rs:739-771 | in every run a result for a queued command closes exactly the record of the proposal it was queued for |
| ServerRuns.AutomaticCommandsAreWarranted | crates/ravn-server/src/remediation.rs:721-835 | every automatic command ever queued was issued with automation on, below the dangerous tier, under a first matching `Auto` rule, signed by the active key |
| ServerRuns.AutomaticCommandsAreBounded | crates/ravn-server/src/remediation.rs:721-835 | between restarts no window of the configured length holds more than `max_auto` queued automatic commands of one host and template |
| ServerRuns.IssuesAreDecisions | crates/ravn-server/src/remediation.rs:741-835 | in any interval, automatic commands queued are no more than automatic decisions made |
| ServerRuns.RestartRefillsTheBudget | crates/ravn-server/src/policy.rs:202-213 | right after a restart a permitted automatic call is granted whatever was spent before, given any budget at all |
| ServerRuns.AnswersForAllLivesExactlyUnless | crates/ravn-server/src/policy.rs:158-228 | after any run, restarts included, the answer is that of a breaker with the decisions of all lives, exactly unless the call is otherwise allowed, this life's window is not spent and that of all lives is |
| ServerRuns.BudgetPerLife | crates/ravn-server/src/policy.rs:202-228 | over a whole run no window holds more automatic commands of one host and template than `max_auto` times the number of lives |
| ServerRuns.CommandsAreConserved | crates/ravn-server/src/command.rs:182-198 | between restarts, what an agent pulled followed by what waits is exactly what was issued to it, in order |
| ServerRuns.ConservedForeverExactlyWhen | crates/ravn-server/src/command.rs:182-198 | over a whole run with restarts, what an agent pulled followed by what waits is what was ever issued to it exactly when every restart found nothing waiting for it |
| ServerRuns.NothingElseIsLost | crates/ravn-server/src/command.rs:182-198 | every command ever issued to an agent was pulled, waits or was dropped by a restart, each as often as it was issued |
| ServerRuns.RejectionDoesNotRecall | crates/ravn-server/src/api.rs:503-517 | a rejection leaves the queue and the record's command as they were |
| ServerRuns.CacheFollows | crates/ravn-server/src/remediation.rs:502-675 | the dedup agreement holds in runs of the whole server |
| Agent.Ledger.Load | crates/ravn-agent/src/remediation.rs:75-85 | the ids of the lines that parse, or nothing when the file cannot be read |
| Agent.Ledger.Record | crates/ravn-agent/src/remediation.rs:93-103 | memory, disk and answer for each way the append can end; a known id is not written again |
| Agent.ProcessCommand | crates/ravn-agent/src/remediation.rs:112-140 | ledger and hand-overs are those of the four protocol steps, and exactly when a report is made and which |
| Agent.PollOnce | crates/ravn-agent/src/remediation.rs:382-417 | a whole batch, duplicates included, is the run of its envelopes in order, and what is posted is the posts of that run |
| Agent.PostsAreTheAnswers | crates/ravn-agent/src/remediation.rs:398-414 | the posts are, one for one and in the order of the batch, the answers (the actuator's, a failure, a rejection) to some of its envelopes, and to every other envelope none is due |
| Agent.EveryEnvelopeIsDealtWith | crates/ravn-agent/src/remediation.rs:382-417 | after a poll the id of every envelope of the batch is on the ledger, unless it did not verify |
| Agent.AtMostOnce | crates/ravn-agent/src/remediation.rs:73-140 | over every run of deliveries, failed appends and crashes between any two steps, no command id is sent twice, each sent id is on disk, each sent envelope verified when it was sent |
| Agent.SentTwiceOnlyIfForgotten | crates/ravn-agent/src/remediation.rs:73-140 | over every run whatsoever, when one command id was sent twice, a restart that could not read the ledger lies between the two |
| Agent.SentAgainExactlyWhenLedgerWasUnreadable | crates/ravn-agent/src/remediation.rs:75-85 | after any run, a command redelivered after a restart is sent again exactly when that restart could not read the ledger |
| Agent.ProcessSends | crates/ravn-agent/src/remediation.rs:112-140 | one delivery sends exactly when the id is unseen, the envelope verifies and the append is confirmed |
| Agent.ReportsMean | crates/ravn-agent/src/remediation.rs:123-139 | what was sent is reported with the actuator's answer or as failed; the only other report is a rejection, which leaves the ledger as it was |
| Actuator.ValidateInputs | crates/ravn-actuator/src/lib.rs:184-197 | accepts exactly when every targeted unit and Kubernetes name is valid |
| Actuator.InputsAreValidExactlyWhen | crates/ravn-actuator/src/lib.rs:90-145 | that is, every precondition, every step and the verification carry fit names, field by field |
| Actuator.UnitNamesAre | crates/ravn-actuator/src/lib.rs:82-88 | what passes for a unit name, character by character |
| Schema.LabelsAre | crates/ravn-core/src/remediation.rs:325-341 | what passes for a Kubernetes name, character by character |
| Actuator.RunPreconditions | crates/ravn-actuator/src/lib.rs:201-221 | runs checks in order and stops at the first that does not hold |
| Actuator.RunSteps | crates/ravn-actuator/src/lib.rs:224-228 | runs steps in order and stops at the first that errs |
| Actuator.PollVerify | crates/ravn-actuator/src/lib.rs:233-255 | between one and twice the timeout plus one checks; a mismatch is final only at or after the deadline |
| Actuator.PerformRollback | crates/ravn-actuator/src/lib.rs:264-294 | runs the declared rollback and nothing else, and reports failure, or frozen when it erred |
| Actuator.HandleCommand | crates/ravn-actuator/src/lib.rs:147-258 | for every executor: rejected exactly on a bad signature or name and then with an empty trace; otherwise the trace is preconditions, steps, checks, at most one rollback, status and observation are the reading of it, and a mismatch was final only at or after the deadline |
| Actuator.HandleConnection | crates/ravn-actuator/src/lib.rs:491-517 | rejected exactly for Kubernetes capabilities, a bad signature or a bad name, with nothing run; otherwise handled as above |
| Actuator.EntriesAre | crates/ravn-actuator/src/lib.rs:199-294 | what runs when: the preconditions in order, the steps in order, then only the check, and at most as the last entry the declared rollback |
| Actuator.GoesOnExactlyWhen | crates/ravn-actuator/src/lib.rs:199-228 | on the executor's own answers: a precondition lets the run go on exactly when it was answered with the expected text, or with nothing where the empty text is expected; a step exactly when it did not err |
| Actuator.SucceededExactlyWhen | crates/ravn-actuator/src/lib.rs:199-258 | a command succeeded exactly when every precondition and the last check were answered so and no step erred |
| Actuator.ObservedIsTheAnswer | crates/ravn-actuator/src/lib.rs:206-294 | the observation reported is the answer of the precondition that did not hold or of the last check; an empty one is left out after a failed check |
| Actuator.StatusMeans | crates/ravn-actuator/src/lib.rs:147-294 | for every such trace: succeeded exactly when all stages passed, frozen exactly when verification failed and the declared rollback erred, and when a precondition failed |
| Actuator.RollbackOnlyAfterFailedVerify | crates/ravn-actuator/src/lib.rs:224-294 | a rollback comes last, once, after all steps and a failed check; a failed step is never rolled back |
| Actuator.NothingMutatesBeforePreconditionsHold | crates/ravn-actuator/src/lib.rs:199-223 | nothing that changes the host runs before every precondition was observed to hold |
| Pipeline.OneExecutionPerProposal | crates/ravn-agent/src/remediation.rs:112-140 | across server restarts, redeliveries and agent crashes, no two hand-overs with no unreadable ledger between them are of commands of one proposal, as long as none is approved again after an approval that was not written |
| Pipeline.SentWasSignedByThePublished | crates/ravn-agent/src/remediation.rs:112-140 | over every run of deliveries, crashes and key rotations, whatever reaches the actuator was signed over its whole payload by a key that was published or pinned at enrollment |
| Pipeline.EveryHandOverHasItsOwnProposal | crates/ravn-agent/src/remediation.rs:112-140 | as long as every delivered envelope that carries a signature of one of those keys came from the queue, whatever else was delivered, every hand-over is a command of some proposal and no two, with no unreadable ledger between them, are of the same one |
| Pipeline.TwoProposalsTwoHandOvers | crates/ravn-server/src/api.rs:459-499 | for every key, a run that meets all these hypotheses: two proposals are approved, and their two commands delivered and handed over |
| Pipeline.BuildFailsOnlyOnNames | crates/ravn-server/src/remediation.rs:416-467 | for a loaded catalogue and a matched fault, building fails only on a Kubernetes name, else the command is the template with the values filled in |
| Pipeline.BuiltCommandsAreAccepted | crates/ravn-actuator/src/lib.rs:173-197 | every party holding the signer's key accepts the command until expiry, and only an invalid unit name can make the actuator refuse its inputs |
| Pipeline.FirstDeliveryIsHandedOver | crates/ravn-agent/src/remediation.rs:112-140 | delivered before its expiry under a ring that trusts the signer, such a command is handed over exactly when its id is new and the ledger took it |
| Pipeline.NothingChangesUntilPreconditionsHold | crates/ravn-actuator/src/lib.rs:199-223 | from a validated template to the executor: nothing changes the host before all of the template's preconditions were run in order and held |
| Frontmatter.ToMarkdown | crates/ravn-server/src/knowledge.rs:124-153 | the line-by-line printer prints the entry's text |
| Frontmatter.FromMarkdownLoop | crates/ravn-server/src/knowledge.rs:158-216 | the pass over lines with its inner loop over list items computes the parse function |
| Frontmatter.ParseParamsLoop | crates/ravn-server/src/knowledge.rs:229-241 | the parameter loop computes the parse function |
| Frontmatter.ParseOutcomeLoop | crates/ravn-server/src/knowledge.rs:244-262 | the outcome loop with its early return computes the parse function |
| Frontmatter.SplitTopLevel | crates/ravn-server/src/knowledge.rs:266-286 | the scan with depth and quote flag yields the pieces between top-level commas |
| Frontmatter.SplitsExactlyAtSeparators | crates/ravn-server/src/knowledge.rs:266-286 | the pieces are the stretches between exactly those commas before which quotes and brackets are balanced |
| Frontmatter.OutcomeOnDisk | crates/ravn-server/src/knowledge.rs:124-153 | the line of an outcome, written out |
| Frontmatter.EntryOnDisk | crates/ravn-server/src/knowledge.rs:124-153 | the lines of an entry, written out |
| RoundTrip.MarkdownRoundTrip | crates/ravn-server/src/knowledge.rs:124-216 | every printable entry reads back as itself, its body up to one final line end |
| RoundTrip.OutcomeRoundTrip | crates/ravn-server/src/knowledge.rs:134-262 | every printable outcome reads back through braces, quotes, top-level commas and signed or missing numbers |
| RoundTrip.ParamsRoundTrip | crates/ravn-server/src/knowledge.rs:220-241 | every printable parameter map reads back, empty keys and values included |
| RoundTrip.UnquoteQuoted | crates/ravn-server/src/knowledge.rs:288-290 | quoting survives unquoting exactly for texts that neither start nor end with a quote |
| Lines.CloserAfterLines | crates/ravn-server/src/knowledge.rs:162-164 | the closing fence is found right after the front matter, whatever the body contains |
| Decimal.I64RoundTrip | crates/ravn-server/src/knowledge.rs:256 | a printed number reads back exactly when it fits the machine integer |
| Decimal.DecimalIs | crates/ravn-server/src/knowledge.rs:134-145 | numbers are printed in decimal notation |
| Slugs.SlugLoop | crates/ravn-server/src/knowledge.rs:80-93 | the character loop computes the slug function |
| Slugs.SlugIsStem | crates/ravn-server/src/knowledge.rs:76-93 | a slug is lower-case letters, digits, dots and underscores with single dashes between: no separator or blank ever gets into a file name |
| Slugs.KeptAre | crates/ravn-server/src/knowledge.rs:80-93 | which characters are kept, and that only capitals change, to their small letters |
| Slugs.SharedFileExactlyWhenSameWords | crates/ravn-server/src/knowledge.rs:76-93 | two signatures have one slug exactly when their maximal runs of kept characters, in lower case, are the same |
| Slugs.SignatureWords | crates/ravn-server/src/knowledge.rs:50-74 | the words of a fault signature are those of its source, key and state in turn |
| Slugs.DifferentWorkloadsShareAFile | crates/ravn-server/src/knowledge.rs:62-93 | for all valid names `a`, `b`, `c` and any reason: workload `b-c` in namespace `a` and workload `c` in namespace `a-b` have different signatures and one file |
| Knowledge.KnowledgeBase.RecordOutcome | crates/ravn-server/src/knowledge.rs:380-421 | the files afterwards, for every outcome of reading and writing |
| Knowledge.KnowledgeBase.RecordGap | crates/ravn-server/src/knowledge.rs:426-456 | the same; an existing entry keeps its template, outcomes and body |
| Knowledge.KnowledgeBase.Recall | crates/ravn-server/src/knowledge.rs:349-376 | the note of the stored entry, or none |
| Knowledge.FilesMirrorMemory | crates/ravn-server/src/knowledge.rs:325-456 | over every run of printable records with any writes failing, the file is the print of an entry kept in memory |
| Knowledge.StoredEntryIsHistory | crates/ravn-server/src/knowledge.rs:380-456 | the stored outcomes are exactly the recorded ones in order, occurrences counts all records, and template, parameters and time are the latest |
| Knowledge.RecallIsTrue | crates/ravn-server/src/knowledge.rs:349-376 | recall speaks exactly when an outcome with status succeeded was recorded; its text, written out, carries the true number of records, of such outcomes and of all outcomes, the latest template, and the sum of their known recovery times over the number of these |
| Knowledge.TruncDivRoundsToZero | crates/ravn-server/src/knowledge.rs:362-366 | that quotient is rounded towards zero |
| Knowledge.OutcomeTellsHistory | crates/ravn-server/src/knowledge.rs:459-471 | after an outcome the entry's text, written out, carries the numbers of the whole history |
| Knowledge.GapTellsOnce | crates/ravn-server/src/knowledge.rs:426-486 | a first gap writes its host and title; a later one leaves text, template, parameters and outcomes as they were |
| Knowledge.TextsAreStatuses | crates/ravn-server/src/knowledge.rs:36-44 | in every run the outcomes whose text reads `succeeded` are as many as those recorded with that status, with the same recovery times |
| Knowledge.HistoryContinuesExactlyWhenReadable | crates/ravn-server/src/knowledge.rs:325-335 | the next record keeps counting exactly when the file could be read |
| LogDedup.LogDeduper.IsNew | crates/ravn-k8s/src/logs.rs:124-145 | answer and cache are those of one lookup in that pod's cache; other pods are untouched |
| LogDedup.LogDeduper.RemovePod | crates/ravn-k8s/src/logs.rs:149-151 | forgets that pod and no other |
| LogDedup.LogDeduper.TotalEntries | crates/ravn-k8s/src/logs.rs:157-159 | the number of slots in use, at most the cap times the pods |
| LogDedup.PositionIsStackDistance | crates/ravn-k8s/src/logs.rs:124-145 | a line's place in the recency stack is the number of distinct others called since |
| LogDedup.CacheMirrorsHistory | crates/ravn-k8s/src/logs.rs:124-145 | after every run the cache is the top of the recency stack, each slot stamped with its last emission |
| LogDedup.StackDistanceTheorem | crates/ravn-k8s/src/logs.rs:124-145 | a line is suppressed exactly when called before, last emitted less than the time-to-live ago, and fewer than `cap` distinct others came since |
| LogDedup.UnboundedUpToCap | crates/ravn-k8s/src/logs.rs:113-145 | with at most `cap` distinct lines the bound is never felt |
| LogDedup.DedupOverManyPods | crates/ravn-k8s/src/logs.rs:124-151 | the same over every interleaving of pods with removals |
| RateLimit.TokenBucket.Consume | crates/ravn-server/src/state.rs:99-112 | refill, cap, decide and deduct: answer and new content |
| RateLimit.AdmittedExactlyWhenItFits | crates/ravn-server/src/state.rs:89-112 | a request is admitted exactly when, from every start point, what was admitted since plus it stays within capacity plus refill |
| RateLimit.StretchBound | crates/ravn-server/src/state.rs:89-112 | any stretch of calls admits at most capacity plus rate times its duration |
| NodeConditions.NodeToMessages | crates/ravn-k8s/src/node.rs:33-73 | one signal per active problem condition, in order |
| NodeConditions.ProblemsAre | crates/ravn-k8s/src/node.rs:33-73 | which conditions of a status are problems: `NodeNotReady` for a `Ready` that is not `True`, and each of the three pressures that is `True` |
| NodeConditions.ProblemsInOrder | crates/ravn-k8s/src/node.rs:33-73 | they come in the order of the status, one for each |
| NodeConditions.NodeWatch.Reconcile | crates/ravn-k8s/src/node.rs:125-149 | the new active set and the signals emitted by one watch event |
| NodeConditions.ActiveIsCurrent | crates/ravn-k8s/src/node.rs:125-149 | after every run the active keys of each node are its current conditions, other nodes untouched |
| NodeConditions.SignalsAreRisingEdges | crates/ravn-k8s/src/node.rs:125-149 | a signal goes out exactly on a rising edge, once |
| NodeConditions.OneSignalPerRisingEdge | crates/ravn-k8s/src/node.rs:125-149 | over every run, signals of a node and condition number exactly its rising edges |
| NodeConditions.ClaimsHoldExactlyWhenSeparated | crates/ravn-k8s/src/node.rs:125-153 | for any names and conditions: both claims hold over every run on them exactly when no name's prefix starts another name's key |
| NodeConditions.NamesWorkExactlyWhenApart | crates/ravn-k8s/src/node.rs:125-153 | for conditions without a slash, which all reported ones are, exactly when no name followed by a slash starts another one followed by a slash |
| NodeConditions.Overlap | crates/ravn-k8s/src/node.rs:132-149 | where one does, a healthy report of the one node forgets the other's condition, which is then signalled twice for one rising edge |
| Outbox.Buffer.Enqueue | crates/ravn-agent/src/buffer.rs:42-61 | the ordered view is that of a deduplicated insert followed by pruning the oldest |
| Outbox.Buffer.DrainBatch | crates/ravn-agent/src/buffer.rs:64-84 | the readable rows among the oldest, with unreadable ones discarded |
| Outbox.Buffer.FlushTick | crates/ravn-agent/src/main.rs:190-211 | publishes in order up to the first failure and deletes what was published |
| OutboxRuns.ViewsStayOrdered | crates/ravn-agent/src/buffer.rs:42-92 | every reachable view is sorted and holds each event at most once |
| OutboxRuns.NothingLeavesUnpublished | crates/ravn-agent/src/main.rs:190-211 | over every run nothing is lost or duplicated, and a readable row leaves only by pruning or by a delete for its event id, under which a row was published before |
| OutboxRuns.NoMessageLeavesUnpublished | crates/ravn-agent/src/main.rs:190-211 | as long as no event id stands for two messages, over every run a readable message leaves only after having been published itself, or by pruning |
| OutboxRuns.NeverLostExactlyWhen | crates/ravn-agent/src/buffer.rs:42-92 | for any set of messages: no run over them deletes one unpublished exactly when each id stands for one message or there are no more ids than the cap |
| OutboxRuns.PublishesFollowTheQueue | crates/ravn-agent/src/main.rs:190-211 | however enqueues interleave, what was published is, drain by drain, a first part of what the drain took from the ordered queue, with the rest in flight unless a publish failed |
| OutboxRuns.DrainDiscardsTheGarbled | crates/ravn-agent/src/buffer.rs:64-84 | of what it looked at, a drain discards exactly the rows that do not parse and returns the others |
| OutboxRuns.DrainTakesTheOldest | crates/ravn-agent/src/buffer.rs:64-84 | a drain looks at the oldest rows, as many as there are up to its size |
| OutboxRuns.PrunedAreOldest | crates/ravn-agent/src/buffer.rs:51-60 | pruning takes the oldest and no more than the excess |
| OutboxRuns.OutboxIsFifo | crates/ravn-agent/src/buffer.rs:42-61 | under a monotone clock the outbox is a deduplicated bounded first-in first-out queue |
| OutboxRuns.NewRowSurvives | crates/ravn-agent/src/buffer.rs:42-61 | a new row survives its own enqueue exactly when there is room or the head is not younger |
| Inference.ExtractStringField | crates/ravn-server/src/inference.rs:169-198 | the character loop computes the extraction, on every text |
| Inference.CutAnywhere | crates/ravn-server/src/inference.rs:169-198 | a JSON string field cut anywhere yields exactly what arrived: nothing before the value has begun, the units wholly before the cut within it, all of it once the closing quote is there |
| Inference.WholeIsWhole | crates/ravn-server/src/inference.rs:169-198 | the number of units read is the largest that fits before the cut |

## Left out

- Crypto.Sign: returns the stamped envelope instead of changing it in place; signatures are ideal and a
  public key is its text, so Ed25519, base64 and JSON byte formats are not modelled.
- Crypto.FromJson: parses as an expression; the loop over the document's keys is not modelled, nor are
  the details of error values.
- Crypto.LoadOrGenerateWithPrevious: starts from keys already read; key files and their permissions
  are not modelled.
- Rotation.RotationAgreement: key ids are assumed injective on the keys in use, and the agent's writes
  and start-up reads successful; `AgreementExactlyWhenPinsHold` covers those that fail. The single
  pinned key is taken to be readable: without any key the agent does not pull and the actuator does
  not start.
- Agent.AtMostOnce: ledger lines are appended whole or not at all, and every restart can read the
  file; `SentTwiceOnlyIfForgotten` covers those that cannot. Torn lines and `fsync` are not modelled,
  and one command is processed at a time.
- Actuator.HandleCommand: detail texts and finish times of reports are not modelled.
- Actuator.PollVerify: each sleep is taken to last at least half a second; the unit length limit is
  in characters, which are bytes for the names that pass.
- Policy.RateBound: the clock is monotone within a run, and one evaluation runs at a time; the gap
  between the two lock sections is not modelled.
- Store.RemediationStore.constructor: assumes the table could be listed, since start-up fails otherwise.
- Store.RemediationStore.Insert: a row conflicts on its proposal id alone, where the statement looks at
  the creation time too; a reused id with another creation time, which makes a second row, is not
  modelled. Ids are freshly generated.
- Store.RemediationStore.InsertAutoApproved: the same.
- Store.RemediationStore.Reject: the row's creation and update times are not modelled, here and in the
  other statements; the time within a decision is.
- Store.RemediationStore.RecordResult: returns the ids of the updated rows, not the whole record.
- Server.Server.PrepareInner: leaves out metrics, the breaker's self-observability event, rationale
  texts and recall notes. Event fields are a lookup table given with the fault.
- Server.Server.PostCommandResult: leaves out metrics and the list of results kept by the queue; the
  knowledge base's record is modelled on its own.
- ServerRuns.AutomaticCommandsAreBounded: counts from the last restart, because the breaker forgets;
  `BudgetPerLife` bounds whole runs.
- ServerRuns.CommandsAreConserved: counts from the last restart, because the queue is in memory;
  `ConservedForeverExactlyWhen` is about whole runs.
- ServerRuns.ConservedForeverExactlyWhen: pulled means drained by a request. A response that is lost on
  its way to the agent loses the commands in it, which is not modelled.
- Frontmatter.FromMarkdown: timestamps are read and printed by a given codec; bracket depth is
  unbounded where the source has 32 bits.
- RoundTrip.MarkdownRoundTrip: for entries whose timestamps the codec gives back; the calendar is not
  modelled.
- Knowledge.RecallIsTrue: sums are unbounded where the source adds 64-bit numbers.
- Knowledge.FilesMirrorMemory: starts from an empty directory, and records fit a 64-bit count.
- Inference.CutAnywhere: escapes `\b`, `\f` and `\u` are not decoded by the source and not covered.
- RateLimit.AdmittedExactlyWhenItFits: over real numbers; rounding is not modelled.
- Outbox.Buffer.Enqueue: rows are kept in insertion order and queried by time, without an SQL engine.
- Interleavings between separate lock sections of policy, ledger and store.
- HTTP, NATS, WebSocket, sockets, systemd, Kubernetes and language-model calls, beyond how they end.
- The Kubernetes agent's command loop, which keeps handled ids in memory only.
- The tables of event fields, severities and reasons, and `is_valid_k8s_subdomain`: case listings.
- Certificates, enrolment, login, roles, configuration, the portal and the evaluation tools.
- Poll back-off and the online/offline status of agents: they decide when to poll and what to display,
  and nothing modelled here depends on them.
