# Approval workflow, membership and sessions: a Dafny model

This project models three parts of the SiteForge backend and proves properties of them that hold
over every input and every run. `dafny verify dfyconfig.toml` checks all of it.

**Approval workflow** (`backend/app/workflow/`). A definition is a list of numbered steps with
optional amount ranges; an instance walks the numbers that apply to its amount while users approve,
reject (for good, or back to some step), delegate, escalate, cancel and comment, each leaving a log row.

- `WorkflowSteps`: steps, applicability, the search for the next number, due dates.
- `WorkflowInstances`: the operations on one instance as a pure step function (`Decide`, `Commit`, `Do`)
  and runs of them (`Run`), with a history of step entries beside the row.
- `WorkflowVisits`: due dates and escalation marks, the documented group rule against the coded one,
  bounds on runs, runs without rejections.
- `WorkflowSkipping`, `WorkflowReplay`, `WorkflowProvenance`, `WorkflowAccess`: amount skipping preserves
  meaning, what the log replays to, where rights come from, inbox and notification.
- `WorkflowReach`: through which steps of a group anyone can act, and on which numbers a run can stand, as
  conditions one can evaluate on a definition before it is activated.
- `WorkflowReturns`: what rejections to another step do, each with its exact condition on the definition:
  stranding and progress, replaying the log to the step, and how long a delegation lasts.
- `WorkflowLog`: what the log itself determines, whatever one does with it, and a reading of it that is right
  whenever any is.
- `WorkflowExamples`: a concrete run for each difference of the workflow listed below.
- `WorkflowSweep`, `WorkflowRegistry`: the overdue sweep and the versioned definitions.
- `WorkflowTables`: all tables as one value, what each call makes of them, and that under any calls in any
  order every row is the run, on the chain it was started on, of what was asked of it.
- `WorkflowOutcomes`, `WorkflowSweepOutcomes`, `WorkflowCallOutcomes`: what each request to an instance, the
  sweep, and each call on the tables is accepted for, refused with, and leaves, read off the steps and the rows
  without the functions the operations are made of; over runs, that a step is due from the moment its caller
  entered it and swept once a timeout has passed since.
- `WorkflowEngine`: the definition, instance and table classes whose methods assign the fields as the
  program does, each proved against the functions above; `PerformAll` holds exactly the tables that
  `WorkflowTables` says the calls leave.

**Membership** (`backend/app/org/`, `backend/app/onboarding/`): users, invitations, the email index and the
token index (`MembershipInput`, `Membership`, `MembershipSeats`, `MembershipTokens`, `MembershipEmails`), what each call is
accepted for and how long an invitation opens (`MembershipOutcomes`), and the class over these tables, whose
invariant is that they agree with one another (`MembershipStore`).

**Sessions and credentials** (`backend/app/auth/`): login, refresh-token rotation, password epochs and reset
links (`Sessions`, `SessionRotation`, `SessionPasswords`), what each call is accepted for, for how long a session
can be refreshed and which password is in force after any run (`SessionOutcomes`), the class over the stores
(`SessionStore`), and the portal reset links (`PortalResets`, `PortalOutcomes`). Each class has a method that takes any sequence of calls and is proved
to go through exactly the runs the whole-run lemmas are about.

`Wrappers`, `Timing`, `Identities` and `Credentials` hold what all of them share.

## Where the code and its documentation differ

The model follows the code.

- A parallel group is documented as complete when every step in it has approved
  (`backend/app/workflow/models.py:88-92`). The coded test looks only for an approval under the step's
  number, so the first approval completes the group. `GroupRulesAgreeExactlyOnSingletons` gives the exact
  condition under which the two agree, a group of one applicable step; `OneApprovalCompletesAGroup` an input.
- `docs/WORKFLOW_ENGINE.md:27-29` scopes a delegation to the current pass over one step. The code keys it by
  step number alone: a delegate acts through the first step of a parallel group
  (`DelegateActsThroughTheLeader`), on every later visit too (`DelegationNeverLapses`). The documented scope
  holds of a definition exactly when none of its returns leads to an applicable number at or below its own
  (`PassScopedExactly`), so it fails wherever rework goes back as documented; `DelegationOutlivesItsPass`
  is such a run.
- The log row of an approval records the old status as the new one, so the row of a final approval says
  pending (`OneRowPerRequest`, `FinalApprovalRowSaysPending`), and a row does not name the step it was found
  through nor the role its author presented. Replaying the log over the definition still gives the status.
  The step number is determined by the log exactly when no user can return an instance from one number to
  two, by presenting one role or another (`LogDeterminesExactly`, `SameLogDifferentStep`); then a reading
  that looks at the author gives it (`ReadGivesPositionExactly`). A fold that looks only at the targets of
  the number is right exactly when every step that can return goes to the first of them
  (`ReplayGivesPositionExactly`), which is less often (`AuthorsTellTheStep`).
- `reject_to_step` is never checked against the definition. An instance sent to a number without an
  applicable step can only be commented on or cancelled (`EmptyGroupIsADeadEnd`, `RejectionStrands`). This
  happens exactly when a step that someone can act through, on a number some run stands on, has such a
  target (`StrandedExactlyByBadTargets`).
- Suspending or reactivating does not look for removed users. Reviving one leaves a user without an index
  row: `RevivingBreaksTheIndex` and, over whole runs, `IndexCompleteExactly` (exact conditions),
  `RevivedUserHasNoRow` (a concrete run).
- A revoked refresh token is blocked for its remaining whole seconds. With a clock finer than a second the
  block may lapse in the last second of the token's life: `BlockLapsesEarlyExactly`, `SecondUseExactly`,
  `AcceptedAgainExactly` (after a logout as well), and `SecondUseHappens` for a token and two times.

## Assumptions

- Each service call is one atomic step of one tenant; a refused call changes nothing. Unique constraints of
  the schema appear as refusals. Clock readings, new ids, random tokens, role claims and the plan's seat
  limit are arguments.
- Ids are opaque numbers, the nil id being the system actor; a portal user and an account never share one.
  Amounts are integers (the smallest currency unit), times are integers (microseconds). Row order within a
  step number is that of the sequence given.
- Digests are injective and password verification is equality. A session token is accepted while the clock
  reads less than its whole-second `exp`, and an expiring key is present until its lifetime has passed; both
  rules come from the token library and the key-value store, not from this repository.

## Model

| member | source | states |
|---|---|---|
| WorkflowSteps.Applies | backend/app/workflow/services.py:192-205 | a step applies exactly when it has no bounds, or the instance has an amount within whichever bounds it has |
| WorkflowSteps.Group | backend/app/workflow/services.py:208-209 | the parallel group at a number is exactly the definition's steps of that number that apply |
| WorkflowSteps.NumbersAfter | backend/app/workflow/services.py:215 | the candidates are the distinct step numbers beyond the given one, strictly increasing |
| WorkflowSteps.NextNumberIsLeast | backend/app/workflow/services.py:212-219 | the next number is the least one beyond the current that has an applicable step; there is none exactly when no later number has one |
| WorkflowSteps.LiveAfterUnfolds | backend/app/workflow/services.py:212-223 | following the search enumerates the sorted list of applicable numbers without gap or repetition |
| WorkflowSteps.DueAtIsStrictest | backend/app/workflow/services.py:228-240 | a group is due at entry plus its least positive timeout, and never when no applicable step has one |
| WorkflowInstances.FindActionableDecides | backend/app/workflow/services.py:299-329 | the search finds a step exactly for delegates, configured approvers and, once escalated, escalation targets, and the step is in the current group |
| WorkflowInstances.OneApprovalMovesOn | backend/app/workflow/services.py:332-375 | the coded group test always passes on an accepted approval, which therefore goes to the next applicable number or finishes |
| WorkflowVisits.RunKeeps | backend/app/workflow/services.py:228-250 | after any run: the position and due date are those of the last step entry, whose moment `DueSinceTheLastEntry` gives, finished instances have none, the escalation mark is set exactly when this visit logged an escalation, at most one is logged per visit, and a pending visit holds no decision |
| WorkflowVisits.FinishedOnlyGainsComments | backend/app/workflow/services.py:347-510 | a non-pending instance changes, over any run, only by gaining comment rows |
| WorkflowVisits.LogOnlyGrows | backend/app/workflow/models.py:189-194 | no run ever alters or drops a log row |
| WorkflowVisits.CodedGroupRuleIsWeaker | backend/app/workflow/services.py:332-375 | at an accepted approval in any reachable state the coded test holds, and the documented rule for this visit holds exactly when every step of the group is the approver's own |
| WorkflowVisits.GroupRulesAgreeExactlyOnSingletons | backend/app/workflow/models.py:88-92 | the coded and the documented group rule agree at an accepted approval exactly when the group has one applicable step, whatever approvals earlier visits left in the log |
| WorkflowVisits.RunBounded | backend/app/workflow/services.py:347-441 | with N applicable numbers and k returning rejections a run has at most (k+1)*N approvals less those still possible, at most 1 + approvals + k step entries, and at most one escalation per entry |
| WorkflowVisits.StraightRunWalksTheList | backend/app/workflow/services.py:212-223 | a run without rejections visits an initial stretch of the sorted distinct positive applicable numbers, one approval per number left, and is approved exactly when all have theirs |
| WorkflowVisits.StartRefusedExactlyWhenNothingApplies | backend/app/workflow/services.py:255-258 | starting is refused exactly when no step with a positive number applies to the amount |
| WorkflowSkipping.DecideSpecialised | backend/app/workflow/services.py:192-250 | every request is accepted, refused and carried out alike on the definition cut down to the applicable steps with their bounds erased |
| WorkflowSkipping.SkippingPreservesRuns | backend/app/workflow/services.py:192-250 | amount skipping preserves meaning: any requests leave the same status, step, due date, escalation mark, log and entries on the cut-down definition |
| WorkflowSkipping.NothingLeftToSkip | backend/app/workflow/services.py:192-205 | every step of the cut-down definition applies to every amount |
| WorkflowSkipping.SweepSpecialised | backend/app/workflow/services.py:612-648 | the overdue sweep escalates, reports and ignores alike on the full and the cut-down definition |
| WorkflowReplay.OneRowPerRequest | backend/app/workflow/services.py:347-510 | each accepted request appends one row naming the step, caller and status it met; its new status is the resulting one unless the request is an approval on the last applicable number |
| WorkflowReplay.ReplayFollows | backend/app/workflow/services.py:369-441 | replaying one row always follows the status, and follows the step exactly when a return went to the first configured target of the group |
| WorkflowReplay.ReplayGivesStatus | backend/app/workflow/services.py:347-510 | folding the log over the definition reproduces the status in every reachable state |
| WorkflowProvenance.EveryDecisionIsRooted | backend/app/workflow/services.py:299-329 | over every run, each approval, rejection and delegation at a number is reached by a finite chain of earlier delegations of that number from a configured approver, or from an escalation target after an escalation of the same visit |
| WorkflowProvenance.DelegationNeverLapses | backend/app/workflow/services.py:305-314 | after any further run a delegate may still decide whenever the instance stands on the delegated number and its group is not empty |
| WorkflowProvenance.DelegateActsThroughTheLeader | backend/app/workflow/services.py:305-314 | a delegate acts through the first step of the group, so through the step that was delegated exactly when that one leads |
| WorkflowAccess.InboxIsPermission | backend/app/workflow/services.py:285-317 | an instance is in a user's inbox exactly when approving, rejecting and delegating it would each be accepted |
| WorkflowAccess.Notified | backend/app/workflow/services.py:32-39 | the users told of a step are exactly those an applicable step names, directly or by role |
| WorkflowAccess.EscalationUsers | backend/app/workflow/services.py:515-528 | the users told of an escalation are exactly those an applicable step escalates to, directly or by role |
| WorkflowAccess.ActingIsBeingTold | backend/app/workflow/services.py:21-56 | on schema-valid definitions the right to act is exactly: told of this step, delegated this number, or told of the escalation in force |
| WorkflowAccess.ToldOnEntryHaveIt | backend/app/workflow/services.py:275-279 | everyone told of a step finds the pending instance in their inbox |
| WorkflowAccess.ToldOfEscalationHaveIt | backend/app/workflow/services.py:583-600 | everyone told of an escalation finds the escalated instance in their inbox |
| WorkflowAccess.SomeoneCanActExactlyWhenLive | backend/app/workflow/schemas.py:22-32 | with schema-valid approvers someone can act on a pending instance exactly when its current group is not empty |
| WorkflowAccess.EmptyGroupIsADeadEnd | backend/app/workflow/services.py:408-409 | an instance on a number without applicable steps keeps that number over every run and can only be commented on or cancelled |
| WorkflowReach.ActedThroughExactly | backend/app/workflow/services.py:312-329 | the search returns a given step for some user, role and state exactly when it leads its group, is the first for its approver, or is the first to escalate to somebody the group does not otherwise name |
| WorkflowReach.Lowest | backend/app/workflow/services.py:407-409 | the lowest number returns come to is not above the first and no return from it or beyond leads below it |
| WorkflowReach.RunStaysVisitable | backend/app/workflow/services.py:212-250 | no run stands, pending, on an applicable number below it |
| WorkflowReach.VisitableExactly | backend/app/workflow/services.py:212-250 | the applicable numbers from it on are exactly those some run stands on while pending, numbers of zero and less included |
| WorkflowReturns.StrandedExactlyByBadTargets | backend/app/workflow/models.py:131-135 | on schema-valid definitions no run strands a pending instance if and only if every step that someone can act through, on a number some run stands on, returns to a number with an applicable step, or nowhere |
| WorkflowReturns.EveryReachableInstanceCanMove | backend/app/workflow/services.py:299-317 | under that condition, and only then, someone can act on every reachable pending instance |
| WorkflowReturns.AloneCanActThrough | backend/app/workflow/services.py:312-318 | someone can act through every step that is alone in its group |
| WorkflowReturns.ReplayGivesPositionExactly | backend/app/workflow/services.py:398-439 | the fold that takes each return to lead to the first configured target of its number gives status and step number in every reachable state if and only if every step that can return does go there |
| WorkflowReturns.ReplayGivesPosition | backend/app/workflow/services.py:398-439 | in particular when the reject targets within each number agree |
| WorkflowReturns.PassScopedExactly | docs/WORKFLOW_ENGINE.md:27-29 | over every run a delegation counts only in the visit it was made in, if and only if no step that can return goes to an applicable number at or below its own |
| WorkflowLog.LogDeterminesExactly | backend/app/workflow/services.py:398-439 | any two runs with equal logs have equal status and step number, if and only if no number some run stands on lets one user, presenting one role or another, return the instance to two numbers |
| WorkflowLog.AmbiguousExactly | backend/app/workflow/services.py:312-328 | whether a user has two ways in a group shows in the users and roles it mentions, and one stranger |
| WorkflowLog.ReadGivesPositionExactly | backend/app/workflow/services.py:347-510 | reading each return by its author gives status and step number in every reachable state whenever the log determines them |
| WorkflowLog.ReplayedIsDetermined | backend/app/workflow/services.py:347-510 | the fold over the targets alone is right only where the log determines the step |
| WorkflowExamples.OneApprovalCompletesAGroup | backend/app/workflow/models.py:88-92 | one approval of a two-step group passes the coded test and not the documented one |
| WorkflowExamples.FinalApprovalRowSaysPending | backend/app/workflow/services.py:369-392 | a run that is approved and whose only log row says pending |
| WorkflowExamples.RejectionStrands | backend/app/workflow/services.py:407-409 | a run that ends pending on a number nobody can act on |
| WorkflowExamples.SameLogDifferentStep | backend/app/workflow/services.py:398-439 | two runs of one definition with equal logs on different steps |
| WorkflowExamples.AuthorsTellTheStep | backend/app/workflow/services.py:398-439 | a definition whose targets of one number differ and whose log determines the step nevertheless |
| WorkflowExamples.DelegationOutlivesItsPass | docs/WORKFLOW_ENGINE.md:27-29 | a run in which the delegate of the first pass may act in the second without being configured, escalated to, or delegated again |
| WorkflowSweep.SweepOneEscalates | backend/app/workflow/services.py:633-643 | an escalation the sweep attempts is never refused and changes the mark and one log row by the system actor, nothing else |
| WorkflowSweep.SweepTwiceIsOnce | backend/app/workflow/services.py:612-648 | sweeping an instance again at the same time escalates nothing, changes nothing and reports the same |
| WorkflowSweep.SweepOfQuery | backend/app/workflow/services.py:625-648 | sweeping the queried rows sweeps every row of the tenant once and no other, and the counts are the numbers escalated and reported |
| WorkflowSweep.NothingLeft | backend/app/workflow/services.py:612-618 | after a sweep no row of the tenant can be escalated at that time, and the reported rows are the same |
| WorkflowSweep.SweepOneIsAnEscalation | backend/app/workflow/services.py:633-643 | what the sweep does to an instance is a request to escalate it, so whole-run statements cover swept instances |
| WorkflowSweep.SweepKeepsRuns | backend/app/workflow/services.py:612-648 | rows that are runs before a sweep are runs after it, with the escalations added |
| WorkflowOutcomes.DueAtIsDueAfter | backend/app/workflow/services.py:228-240 | a step in force at a number is due when the shortest of its positive timeouts, in hours of 3600 seconds, has passed since entry |
| WorkflowOutcomes.DecisionAccepted | backend/app/workflow/services.py:299-329 | while pending, the three decisions are open exactly to whoever a step in force names, was delegated the number, or is escalated to; with the error otherwise |
| WorkflowOutcomes.FoundIsActsThrough | backend/app/workflow/services.py:312-328 | the step acted through is the first of the definition, in order, that the user holds in their own right, or failing any the first escalated to them |
| WorkflowOutcomes.ApprovalLeads | backend/app/workflow/services.py:347-395 | an accepted approval enters the least later number with a step in force, at the caller's moment, due from then and unescalated, or finishes where there is none; one row, nothing else |
| WorkflowOutcomes.RejectionLeads | backend/app/workflow/services.py:398-441 | an accepted rejection enters the target of the step acted through, at the caller's moment, or ends the instance; one row, nothing else |
| WorkflowOutcomes.DelegationLeads | backend/app/workflow/services.py:444-466 | an accepted delegation entitles the delegate on this number, whatever role they present, and writes one row |
| WorkflowOutcomes.CancellationLeads | backend/app/workflow/services.py:469-495 | open to anyone while the instance is pending and to nobody after |
| WorkflowOutcomes.CommentLeads | backend/app/workflow/services.py:498-510 | open to anyone, finished instances included, and changes only the log |
| WorkflowOutcomes.EscalationLeads | backend/app/workflow/services.py:546-609 | by a person or the scheduler, accepted exactly when pending, not escalated since entry, and some step in force names a user or a role to escalate to; with the error otherwise |
| WorkflowOutcomes.StartLeads | backend/app/workflow/services.py:255-282 | a new instance stands on the least positive number with a step in force, due from its start; refused exactly when there is none |
| WorkflowOutcomes.DueSinceTheLastEntry | backend/app/workflow/services.py:228-250 | after any run a pending instance is due by the moment given with the last accepted request that entered a step, or its start; a finished one never |
| WorkflowOutcomes.VisitsAreTheEntries | backend/app/workflow/services.py:243-250 | the last entry of the kept history is at that moment |
| WorkflowSweepOutcomes.FateExactly | backend/app/workflow/services.py:625-643 | of the instances pending, unescalated and due by now whose step in force escalates by itself, those with somebody to escalate to are escalated and the others reported; everything else is ignored |
| WorkflowSweepOutcomes.SweepLeads | backend/app/workflow/services.py:612-648 | exactly those rows of the tenant get the mark and one row by the system actor, every other row stays, and the counts are theirs |
| WorkflowSweepOutcomes.SweptOnceTimedOut | backend/app/workflow/services.py:612-648 | after any run the sweep escalates an instance exactly when a timeout of its step has passed since the request that led there, it is still pending and unescalated, and the step escalates by itself to somebody |
| WorkflowCallOutcomes.CreateLeads | backend/app/workflow/services.py:80-106 | the new version is one more than the number of definitions of the key; inactive, by its author, behind all others |
| WorkflowCallOutcomes.SwitchLeads | backend/app/workflow/services.py:148-181 | what becomes of every row when one is activated or deactivated, and when that is refused |
| WorkflowCallOutcomes.UpdateRefused | backend/app/workflow/services.py:109-145 | an edit is refused exactly for a definition that is missing, active, or used by an instance, with which error |
| WorkflowCallOutcomes.BeginLeads | backend/app/workflow/services.py:255-282 | a submission is accepted exactly when the definition is there and a step of positive number applies to the amount; the new row is its tenant's, on its first step in force, due from now |
| WorkflowCallOutcomes.AskLeads | backend/app/workflow/services.py:347-609 | an accepted request writes one row of the tables, a refused one none |
| WorkflowEngine.WorkflowInstance.FindActionableStep | backend/app/workflow/services.py:299-329 | the two loops return the step of the specified search |
| WorkflowEngine.WorkflowInstance.MoveTo | backend/app/workflow/services.py:243-250 | sets the step, its due date, and clears the escalation mark |
| WorkflowEngine.WorkflowInstance.ApproveStep | backend/app/workflow/services.py:347-395 | carries out the approval `ApprovalLeads` describes, entering the next step at the caller's moment with its due date from then, or refuses and changes nothing |
| WorkflowEngine.WorkflowInstance.RejectStep | backend/app/workflow/services.py:398-441 | the same for the rejection of `RejectionLeads`, terminal or returning |
| WorkflowEngine.WorkflowInstance.DelegateStep | backend/app/workflow/services.py:444-466 | the same for delegation |
| WorkflowEngine.WorkflowInstance.CancelInstance | backend/app/workflow/services.py:469-495 | the same for cancellation |
| WorkflowEngine.WorkflowInstance.AddComment | backend/app/workflow/services.py:498-510 | the same for comments, in every status |
| WorkflowEngine.WorkflowInstance.EscalateInstance | backend/app/workflow/services.py:546-609 | the same for escalation, by a user or the scheduler |
| WorkflowEngine.HandleAll | backend/app/workflow/services.py:347-609 | one instance object that receives any requests in any order goes through exactly the runs of the whole-run theorems |
| WorkflowTables.EveryRowIsARun | backend/app/workflow/services.py:80-648 | under any interleaving of definition changes, submissions, requests and sweeps every instance is the run, on the chain it was started on, of its history |
| WorkflowTables.HistoriesAreTheCalls | backend/app/workflow/services.py:347-648 | that history gains exactly what people ask of the instance, in order, and the scheduler's escalations |
| WorkflowTables.ChainsStay | backend/app/workflow/services.py:109-145 | no later call moves an instance to another tenant or chain |
| WorkflowTables.RegistryIsARun | backend/app/workflow/services.py:80-181 | the definitions are the run of the definition changes and submissions alone |
| WorkflowEngine.PerformAll | backend/app/workflow/services.py:80-648 | an engine that receives any calls in any order holds exactly the tables these statements are about |
| WorkflowEngine.Engine.CreateDefinition | backend/app/workflow/services.py:80-106 | appends an inactive definition with its name, description, steps and author, whose version is one more than the definitions of its key |
| WorkflowEngine.Engine.UpdateDefinition | backend/app/workflow/services.py:119-145 | replaces the given parts of a draft and signs it, refuses active and used definitions, and leaves every instance and its steps as they were |
| WorkflowEngine.Engine.ActivateDefinition | backend/app/workflow/services.py:148-173 | leaves this definition, signed, as the only active one of its key and touches no steps |
| WorkflowEngine.Engine.DeactivateDefinition | backend/app/workflow/services.py:176-181 | switches one definition off and signs it |
| WorkflowEngine.Engine.StartInstance | backend/app/workflow/services.py:255-282 | appends a pending instance on the first applicable number with its due date, or refuses |
| WorkflowEngine.Engine.Request | backend/app/workflow/services.py:347-609 | carries out one request on one instance or refuses it, and touches no other |
| WorkflowEngine.Engine.GetPendingApprovals | backend/app/workflow/services.py:285-296 | returns exactly the tenant's pending instances whose current step the user is entitled to decide, each once |
| WorkflowEngine.Engine.OverdueRows | backend/app/workflow/services.py:625-631 | returns exactly the tenant's pending, unescalated instances past their due date |
| WorkflowEngine.Engine.SweepOverdue | backend/app/workflow/services.py:612-648 | query and loop leave the tables as one call of the value-level sweep, with its two counts and nothing left to escalate |
| WorkflowEngine.Engine.EscalateOverdueInstances | backend/app/workflow/services.py:612-648 | the sweep over the whole table: exactly the rows of `SweepLeads` are escalated, its two counts are the numbers of rows to escalate and to report as their fields say, no errors, and nothing left to escalate |
| WorkflowEngine.Engine.SweepTwice | backend/app/workflow/services.py:612-648 | a second sweep at the same time escalates none and reports the same number |
| WorkflowRegistry.EveryRegistryKept | backend/app/workflow/services.py:80-181 | in every reachable registry at most one definition of a key is active and versions count the definitions of their key |
| WorkflowRegistry.VersionsAreOneToN | backend/app/workflow/services.py:85-96 | the versions of a key are exactly 1 to n |
| WorkflowRegistry.VersionsDistinct | backend/app/workflow/services.py:85-96 | later definitions of a key have larger versions |
| WorkflowRegistry.UsedStepsNeverChange | backend/app/workflow/services.py:109-145 | from any kept registry, through any operations, the name, description and steps of a definition some instance refers to stay the same, and no definition or version disappears |
| WorkflowRegistry.ActivationRoutes | backend/app/workflow/services.py:148-187 | after an activation submissions of that key go to the activated definition, and other keys are untouched |
| WorkflowRegistry.DeactivationStopsRouting | backend/app/workflow/services.py:176-187 | after switching the active definition off the key has none |
| MembershipSeats.EveryCallMovesSeats | backend/app/org/services.py:43-50 | every call changes the seats of its own tenant by exactly what it takes or frees, and of no other tenant |
| MembershipSeats.SeatsNeverExceed | backend/app/org/services.py:107-112 | with a fixed limit no run takes a tenant's seats beyond the larger of the limit and the seats at the start |
| MembershipSeats.AcceptKeepsSeats | backend/app/org/services.py:270-339 | accepting an invitation leaves the count unchanged for every tenant |
| MembershipSeats.ExpiryFreesNothing | backend/app/org/services.py:236-267 | an expired invitation opens to no token but holds its seat until cancelled |
| MembershipTokens.AfterTokensAgree | backend/app/org/services.py:131-134 | every call keeps the token index and the stored digests in one-to-one agreement |
| MembershipTokens.TokenOpensItsInvitation | backend/app/org/services.py:236-267 | in every reachable state a token is valid exactly when it is the latest issued for a pending, unexpired invitation |
| MembershipTokens.OneUserPerInvitation | backend/app/org/services.py:270-339 | over any run an invitation creates at most one user, and none of its tokens is valid afterwards |
| MembershipTokens.ResendingSupersedes | backend/app/org/services.py:162-186 | a resend makes the new token valid for its lifetime and the previous one invalid |
| MembershipEmails.IndexAlwaysSound | backend/app/models/core.py:88-133 | over every run each index row points to a present user of the same email and tenant, the partial unique indexes hold, and every stored email is in its normal form |
| MembershipEmails.IndexCompleteWhenRemovalIsFinal | backend/app/org/services.py:342-406 | when removed users are left alone every present user has exactly one row and no present user is also invited |
| MembershipEmails.RevivingBreaksTheIndex | backend/app/org/services.py:342-369 | an accepted suspension or reactivation keeps the index complete exactly when the user had not been removed |
| MembershipEmails.IndexCompleteExactly | backend/app/org/services.py:342-406 | over any run every present user can be found by email at all times if and only if no accepted suspension or reactivation concerned a removed user |
| MembershipEmails.RevivedUserHasNoRow | backend/app/org/services.py:351-406 | a concrete run that leaves an active user without an index row |
| MembershipEmails.AcceptSucceedsExactly | backend/app/org/services.py:302-338 | a new user can take up an invitation exactly when the token is valid, the password long enough, and no other tenant holds the email |
| MembershipInput.NormaliseIsNormal | backend/app/org/services.py:83 | the stored form has no outer whitespace and no capital letters, and what has neither is stored as it is |
| MembershipInput.AcceptedIsStoredAsAddress | backend/app/onboarding/services.py:28-44 | an email the sign-up pattern accepts, a final line feed included, is stored as a proper address |
| MembershipInput.StoredForm | backend/app/org/services.py:83 | what is stored is all that was typed between the outer whitespace, with capitals made small and nothing else changed |
| MembershipOutcomes.InviteLeads | backend/app/org/services.py:82-159 | accepted exactly when the role is the tenant's, the stored form of the email is nobody's present there nor invited, active users and pending invitations are fewer than the limit, and id and token are new, with the error otherwise; pending for seven days |
| MembershipOutcomes.ResendLeads | backend/app/org/services.py:162-186 | accepted exactly for a pending invitation of the tenant and a new token; seven days from now, same email and role |
| MembershipOutcomes.CancelLeads | backend/app/org/services.py:189-195 | accepted exactly for a pending invitation of the tenant |
| MembershipOutcomes.StatusLeads | backend/app/org/services.py:342-406 | when suspending, reactivating and removing are accepted, counting seats by the rows, and that each touches one user and, on removal, the rows leading to them |
| MembershipOutcomes.ReactivatingUndoesSuspending | backend/app/org/services.py:342-369 | reactivating a suspended user restores all tables, and is refused exactly when the seat has gone by a lower limit |
| MembershipOutcomes.SignUpLeads | backend/app/onboarding/services.py:40-123 | refused exactly for a blank name, a malformed email, a password under eight characters or taken ids and email; otherwise the user holds the role made for them |
| MembershipOutcomes.OpensForSevenDays | backend/app/org/services.py:236-267 | after any run a token opens an invitation exactly when it is the last one issued for it, no more than seven days ago, and the invitation was neither cancelled nor taken up since |
| MembershipOutcomes.NewInvitationOpens | backend/app/org/models.py:14 | after any run an accepted invitation or resend opens at every moment up to seven days from then and at none later |
| MembershipOutcomes.AcceptLeads | backend/app/org/services.py:270-339 | after any run, who presents an issued token becomes an active user with tenant, email and role of the invitation, found under the email; refused exactly after seven days, for a short password, or for a taken email |
| MembershipOutcomes.NothingToAccept | backend/app/org/services.py:236-304 | a token that is not the open one of any invitation is refused |
| MembershipOutcomes.RemovedCanReturn | backend/app/org/services.py:372-406 | a removed user's email can be invited and taken up again, and then leads to the new user |
| MembershipStore.Store.SignUpTenant | backend/app/onboarding/services.py:40-123 | checks name, email and password, then creates tenant, role, user and index row together or nothing, under the normalised email; keeps the tables in agreement |
| MembershipStore.Store.CreateInvitation | backend/app/org/services.py:82-159 | refuses for what `InviteLeads` names, or adds an invitation that its token opens exactly up to seven days from now; keeps the tables in agreement |
| MembershipStore.Store.ResendInvitation | backend/app/org/services.py:162-186 | updates the first token row of a pending invitation, or adds one, which by the invariant leaves exactly the row of the new digest |
| MembershipStore.Store.CancelInvite | backend/app/org/services.py:189-195 | cancels a pending invitation and nothing else; keeps the tables in agreement |
| MembershipStore.Store.GetInvitationByToken | backend/app/org/services.py:236-267 | the two-step lookup finds exactly what `TokenOpensItsInvitation` is about, which by the invariant stores the token's digest |
| MembershipStore.Store.AcceptInvitation | backend/app/org/services.py:270-339 | adds user and index row and closes the invitation together, or refuses; keeps the tables in agreement |
| MembershipStore.Store.SuspendUser | backend/app/org/services.py:342-348 | suspends whatever the status was; by the invariant the unique index refuses only removed users |
| MembershipStore.Store.ReactivateUser | backend/app/org/services.py:351-369 | reactivates under the seat limit; by the invariant the unique index refuses only removed users |
| MembershipStore.Store.RemoveUser | backend/app/org/services.py:372-406 | marks the user removed and deletes their index rows, by the invariant the one under their email if they have it |
| MembershipStore.AfterKept | backend/app/org/services.py:82-406 | every call keeps tokens with invitations, index rows with users, emails unique and normal, and rows with tenants |
| MembershipStore.HandleAll | backend/app/org/services.py:82-406 | a store that receives any calls in any order goes through exactly the runs of the whole-run theorems |
| SessionRotation.BlockCoversAllButLastSecond | backend/app/auth/jwt_utils.py:123-133 | the block of a revoked token reaches to less than a second before its expiry |
| SessionRotation.BlockLapsesEarlyExactly | backend/app/auth/routes.py:125-127 | the block lapses before the expiry exactly when more than a second, and no whole number of seconds, was left |
| SessionRotation.SecondUseExactly | backend/app/auth/routes.py:118-129 | a rotated token can be rotated again exactly in that case |
| SessionRotation.AcceptedAgainExactly | backend/app/auth/routes.py:134-143 | after a rotation or a logout the token is accepted again exactly in that case |
| SessionRotation.EachTokenUsedOnce | backend/app/auth/routes.py:70-143 | with a whole-second clock each refresh token is accepted at most once over any run, by rotation or logout |
| SessionRotation.ReuseOnlyInLastSecond | backend/app/auth/routes.py:70-143 | with any clock a token accepted again is in the last second of its life |
| SessionRotation.SecondUseHappens | backend/app/auth/routes.py:118-129 | a token of a login, and two times, at which it is rotated twice |
| SessionPasswords.OldTokensNeverPass | backend/app/auth/jwt_utils.py:142-215 | with strictly increasing readings no token issued before a change passes the check, or can be rotated, in any later run |
| SessionPasswords.SessionLastsUntilTheChange | backend/app/auth/jwt_utils.py:177-215 | with strictly increasing readings a token that passes the check goes on passing over any run until its user's password changes, and never after |
| SessionPasswords.LoginFollowsThePassword | backend/app/auth/jwt_utils.py:52-120 | after a change the email that leads to the user logs in with the new password and no other, unless the tenant is suspended, and every other email as before |
| SessionPasswords.SuspensionStopsLogins | backend/app/auth/jwt_utils.py:86-91 | suspending a tenant refuses exactly its users' logins and takes no session away |
| SessionPasswords.NewTokensAreCurrent | backend/app/auth/jwt_utils.py:142-174 | tokens of a login or rotation are for staff, for that user, and say what account, role and epoch are at that moment, whatever the rotated token said |
| SessionPasswords.PortalTokensStayOut | backend/app/auth/routes.py:78-112 | over any run no portal token is taken by the staff refresh |
| SessionPasswords.RequestsTellNothing | backend/app/auth/services.py:82-121 | a request for a link succeeds whether or not the email has an account, and adds at most a link for the account it has |
| SessionPasswords.LinksAreOneShot | backend/app/auth/services.py:151-186 | over any run each reset link changes the password of its own user at most once and never after its expiry, and the used links are exactly those |
| SessionOutcomes.LoginLeads | backend/app/auth/routes.py:39-67 | accepted exactly when the email leads to an active user whose password it gives and whose tenant is not suspended; access for fifteen minutes, refresh for thirty days, in whole seconds |
| SessionOutcomes.RotateLeads | backend/app/auth/routes.py:70-131 | refused exactly for a token not presentable, a client's, or one of a missing user or an old password, in that order; otherwise it is blocked for its remaining whole seconds and a session of the same user begins |
| SessionOutcomes.LogoutLeads | backend/app/auth/routes.py:134-143 | accepted exactly for a presentable token, which is blocked alone |
| SessionOutcomes.NewTokensLive | backend/app/config.py:98-99 | a new access token expires at the whole second of fifteen minutes from now, a new refresh token at that of thirty days |
| SessionOutcomes.RefreshesForThirtyDays | backend/app/auth/routes.py:70-131 | through any calls with new ids, the refresh token of an accepted login or rotation is itself rotated exactly until that second, while it is unspent and the password unchanged |
| SessionOutcomes.RefreshesExactly | backend/app/auth/routes.py:70-131 | with a whole-second clock that goes on, if and only if: in time, unspent, password unchanged |
| SessionOutcomes.ChangeLeads | backend/app/auth/services.py:189-209 | refused exactly for a new password under eight characters, a user not seen, or a current password that is not theirs; otherwise that account's password and epoch |
| SessionOutcomes.ChangeTakesWhatLoginTakes | backend/app/auth/services.py:204-205 | a change takes exactly the password a login of the same user takes |
| SessionOutcomes.ChangeTakesTheLastPassword | backend/app/auth/services.py:189-209 | after any run a seen user can change their password exactly by giving the one their last accepted opening, change or reset gave them |
| SessionOutcomes.LoginTakesTheLastPassword | backend/app/auth/jwt_utils.py:52-120 | and an email that leads to them logs in with exactly that one, unless their tenant is suspended |
| SessionOutcomes.RequestLeads | backend/app/auth/services.py:82-121 | a link for an hour for whoever the email leads to, or nothing; refused only when the token is stored already |
| SessionOutcomes.LinkOpensForAnHour | backend/app/auth/services.py:151-186 | after any run a link sets a password, that of the user it was requested for, exactly when the password has eight characters, the request was no more than an hour ago and the link is unused |
| SessionOutcomes.OpeningLetsIn | backend/app/models/core.py:88-133 | a new account is reached by its own email and no other; every other email leads where it did |
| SessionOutcomes.ClosingShutsOut | backend/app/org/services.py:342-406 | a closed or deactivated account is reached by no email, and nobody else is concerned |
| SessionOutcomes.ClosingLeavesSessions | backend/app/auth/routes.py:70-112 | closing or deactivating an account changes nothing about which tokens are rotated or logged out |
| SessionOutcomes.SuspendingLeads | backend/app/auth/jwt_utils.py:86-91 | a suspension concerns one tenant and holds until lifted |
| SessionOutcomes.RolesAreSaid | backend/app/auth/jwt_utils.py:142-174 | a new role, or its new permissions, are what that user's next tokens say, and nobody else's |
| SessionOutcomes.PortalLoginLeads | backend/app/auth/routes.py:73-83 | portal sessions are marked as such and refused only to users with an account |
| SessionStore.Store.RevokeRefreshToken | backend/app/auth/jwt_utils.py:123-133 | the id is blocked from now for the given seconds, or for one second if that is longer, and not beyond; every other id is as before |
| SessionStore.Store.LogIn | backend/app/auth/routes.py:39-67 | begins a session of fifteen minutes and thirty days for the user the email leads to, given their password, and stamps the login, or refuses and changes nothing |
| SessionStore.Store.RefreshSession | backend/app/auth/routes.py:70-131 | refuses for what `RotateLeads` names and changes nothing, or spends the token and begins a session of fifteen minutes and thirty days |
| SessionStore.Store.LogOut | backend/app/auth/routes.py:134-143 | spends an accepted token, of staff or portal, or refuses |
| SessionStore.Store.ChangeOwnPassword | backend/app/auth/services.py:189-209 | changes password and epoch of a user seen in the tenant who gives their current password, or refuses |
| SessionStore.Store.RequestPasswordReset | backend/app/auth/services.py:82-121 | adds a link for the active user the index leads to, or silently nothing |
| SessionStore.Store.RedeemReset | backend/app/auth/services.py:151-186 | changes password and epoch and spends the link, or refuses |
| SessionStore.AfterKept | backend/app/auth/jwt_utils.py:123-215 | every call keeps portal users apart from accounts, and every orderly one (clock not backwards, new ids) keeps token ids unique and epochs ordered |
| SessionStore.Store.Handle | backend/app/auth/routes.py:70-143 | by the invariant a rotation never takes a portal's token, spending a token revokes no other, and a changed password ends every session its user had |
| SessionStore.HandleAll | backend/app/auth/routes.py:39-143 | a store that receives any calls in any order goes through exactly the runs of the whole-run theorems and stays orderly on orderly ones |
| PortalResets.EachActiveHolderGetsALink | backend/app/auth/portal_reset.py:91-121 | one request gives every active account registered with the email on that portal its own link, which opens there |
| PortalResets.NewLinksAreTheirs | backend/app/auth/portal_reset.py:99-119 | every new link is unused and belongs to an active account so registered |
| PortalResets.RedeemedOnce | backend/app/auth/portal_reset.py:147-166 | a redemption is in time and on its own portal, spends the link on every portal, and touches one account |
| PortalResets.PortalLinksAreOneShot | backend/app/auth/portal_reset.py:147-175 | over any run of requests, redemptions and voidings no link is redeemed twice |
| PortalResets.VoidedLinksNeverOpen | backend/app/auth/portal_reset.py:169-175 | a voided holder's links open on no portal in any later run, and other holders' open as before |
| PortalOutcomes.RequestAccepted | backend/app/auth/portal_reset.py:91-121 | with a token for each row, accepted exactly when those for accounts in good standing are new and distinct; no earlier link changes |
| PortalOutcomes.RedeemLeads | backend/app/auth/portal_reset.py:147-166 | sets the password and epoch of the link's holder and the moment of use, and changes nothing else |
| PortalOutcomes.LinkOpensForAnHour | backend/app/auth/portal_reset.py:147-175 | after any run a link is redeemed exactly on its portal, with eight characters, within an hour of the request that made it, unused, not voided, and while its account is in good standing |
| PortalOutcomes.EachHolderHasAnHour | backend/app/auth/portal_reset.py:91-121 | each active account behind the email gets a token that right after the request is redeemed exactly within the hour |
| PortalOutcomes.VoidLeads | backend/app/auth/portal_reset.py:169-175 | voiding removes that holder's unused links and no others |
| PortalResets.Store.RequestReset | backend/app/auth/portal_reset.py:91-121 | the loop over the index rows writes the links these two lemmas are about, or none on a digest collision |
| PortalResets.Store.ResetPassword | backend/app/auth/portal_reset.py:147-166 | the specified redemption or refusal |
| PortalResets.Store.InvalidateResetTokens | backend/app/auth/portal_reset.py:169-175 | removes the holder's unused links |
| PortalResets.HandleAll | backend/app/auth/portal_reset.py:91-175 | a store that receives any calls in any order goes through exactly the runs of `PortalLinksAreOneShot` |

## Left out

- WorkflowEngine.Engine.EscalateOverdueInstances: the commit inside the loop and the session context it loses are not modelled, nor are database errors in mid-sweep.
- MembershipStore.Store.SignUpTenant: the trial subscription it starts and the tokens its route issues at once are not modelled, and only ASCII letters are lowered.
- MembershipStore.Store.CreateInvitation: department, job title, message and inviter are not modelled, and only ASCII letters are lowered.
- MembershipInput.NormaliseIsNormal: only ASCII letters are lowered; the whitespace stripped is all of it.
- MembershipInput.AcceptedIsStoredAsAddress: only ASCII letters are lowered; the whitespace the pattern excludes is all of it.
- Comments, IP addresses and user agents of log rows; the `name`, `allow_skip` and `parallel` fields of steps, which the engine never reads.
- Delivery of notifications and emails; only who is told is modelled.
- Who may escalate by hand (`can_user_escalate`), a route-level check.
- Decimal amounts beyond an integer scale, and ordering of query results.
- Role names, the guards on editing permission sets, role deletion; companies and listings.
- Avatars, subscription checks and the access-token middleware.
- The refresh routes of the portals and their timestamp check, which is the staff one on other tables.
- Billing, beyond the plan's optional seat limit.
- All other modules of the backend, the frontend and the mobile client.
