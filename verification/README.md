# A verified model of the opt-out sync service

The service takes in opt-out requests (SMS, email, generic JSON), stores one canonical identifier per
request, stages one sync task for every active integration, and lets background workers deliver each task
to HubSpot, Salesforce, GoHighLevel or a webhook, retrying with exponential backoff. This project models
those parts in Dafny and proves what they keep over whole runs: with any number of workers, any
interleaving, any pattern of failing requests, and crashes at any point. Nothing was executed; every
statement below is a theorem about the model. `dafny verify dfyconfig.toml` checks the project.

## How the model is built

* **Text** (`Text`, `Normalizer`, `Regex`, `EmailSearch`, `PhoneSearch`, `NumberSearch`, `Languages`,
  `Extraction`, `PathLookup`).
  Strings are sequences of ASCII characters. `Regex` gives the backtracking semantics of `re.search` (ends
  of matches in the order they are tried) next to the plain language of a pattern, and proves them to agree;
  the two patterns of the service are then analysed on top of it: `Languages` says which texts they describe,
  the search modules which of them is found.
* **Delivery protocols** (`Crm`, `Dispatcher`). A remote account is three tables of records. Each request is
  delivered, fails without effect, or takes effect and loses its response. `Crm.Step` is one request,
  `Crm.Finish` a whole dispatch; `Crm.Marked` says without the protocol what a dispatch should achieve. The
  methods of `Dispatcher` make the calls of the source against a mutable client and are proved against both.
* **The queue, one worker** (`Queue`, `Registry`, `Database`, `Worker`, `OptOutService`, `Integrations`,
  `Handlers`, `Runs`, `StoredIdentifiers`, `Marks`, `SingleRecord`, `Convergence`). `Database.Store` holds the
  mutable tables; the methods of `Worker`, `OptOutService`, `Integrations` and `Handlers` follow the source's loops and assignments and are
  proved equal to the functions `Queue.Cycle`, `Registry.Ingest`, `Registry.Toggle` and so on. The lemmas of
  `Runs`, `Marks`, `SingleRecord` and `Convergence` are about arbitrary sequences of these operations, cycles
  cut off by a crash included.
* **The queue, many workers** (`Machine`, `Exclusion`, `Accounting`, `Delivery`, `HubSpotWrites`,
  `Dormancy`, `FanOut`, `Overtaking`, `Duplicates`, `Simulation`). `Machine.Next` is a transition system whose steps are as small as the
  source's awaits allow: select, commit of the claim, load, each single request, commit of an attempt,
  crash, ingest, register, toggle, delete, clock. A commit writes only the columns that differ from the
  row its own transaction read, as the ORM does. `Simulation` proves that every single-worker cycle is such a run.
* **The worker loop** (`Wakeup`). The loop, its event and its poll timeout as a transition system.

Both levels share `Queue.Settle` (what a result makes of a row), `Queue.EligibleIds` (the select) and
`Crm.Step`, so nothing is modelled twice.

## What was found

* **Claims are no lock.** The comment at `app/core/worker.py:67` promises that marking rows PROCESSING
  keeps other instances away. It does exactly when claim phases do not interleave
  (`Exclusion.RunExclusiveExactly`). When they do, two runs of the model lose a retry increment and turn
  a COMPLETED task into a FAILED one (`Exclusion.InterleavedClaimsLoseRetry`,
  `Exclusion.InterleavedClaimsUndoCompletion`); `Accounting.RunCountedExactly` and
  `Accounting.CompletionSurvivesExactly` say exactly which commits do that.
* **Two workers can create two records.** One worker never makes a second record for an identifier
  (`SingleRecord.RunMakesNoDuplicate`). Two workers can, even with exclusive claims, when tasks of two opt-outs of one
  person are delivered at the same time (`Duplicates.TwoWorkersDuplicate`; exactly when:
  `Overtaking.RunSingleExactly`).
* **A crash strands tasks.** Nothing ever selects a PROCESSING row again, so exactly the uncommitted part
  of a batch is lost for good (`Runs.CrashPartition`, `Dormancy.CrashStrands`).
* **The trigger comes before the commit.** `create_optout` wakes the worker "immediately"
  (`app/services/optout_service.py:54-56`), but its transaction is committed only when the request ends
  (`app/core/database.py:64-68`). No wake-up is lost (`Wakeup.NoLostWakeup`), yet the woken cycle may run
  before the commit and leave the task for the next poll timeout. `Wakeup.TriggerServesOwnTaskExactly`
  gives the exact condition, `Wakeup.TriggerBeforeCommitCanMiss` a run, `Wakeup.TimeoutPicksUp` the bound.
* **HubSpot opt-outs are not monotone.** Each write sets both flags, so a phone opt-out clears the email
  flag of a shared contact (`HubSpotWrites.HubSpotKeepsFlagExactly`, with two such deliveries
  in `HubSpotWrites.HubSpotOptOutCanBeLost`). Salesforce flags are never cleared.
* **Deleted integrations.** The docstring at `app/api/v1/endpoints/integrations.py:80` says staged tasks
  "won't be dispatched". No request is sent for them, but they are attempted, fail, and end
  MAX_RETRIES_EXCEEDED (`Dormancy.NoRequestAfterDeletion`, `Runs.DeletedTargetExhausts`). Tasks of a merely inactive integration become
  COMPLETED without any request and stay so after reactivation (`Runs.PausedTargetCompletes`).
* **Pre-normalising as a phone number can change what is stored**: exactly when the text contains "@" and
  also a digit or "+" (`Normalizer.PhoneFirstChangesExactly`). Pre-normalising as an email never does. The
  docstring at `app/core/normalizer.py:5` promises E.164, but the length test there has no effect and
  the model claims none.
* **An email's verdict can come from subject and body together**, when one says "take" and the other "off"
  (`Extraction.EmailVerdictExactly`); the frame of the evaluated text never adds anything else.
* **An extension becomes part of the number.** The phone pattern takes in "x" and digits, and the normalisation
  drops only the "x": "+15551234567x89" is stored as "+1555123456789" (`Extraction.ExtensionExtracted`).
* **Strict mode does not miss a token.** It refuses mock tokens only; HubSpot and Salesforce are called
  even if no token is configured (`Dispatcher.StrictRefusesExactly`).

## Model

| member | source | states |
|---|---|---|
| Crm.AttemptAllOrNothing | app/services/integration_dispatcher.py:107-146 | Whatever requests of a HubSpot or Salesforce dispatch fail, before or after their effect, the account is untouched or completely updated; success implies updated. |
| Crm.CleanIsMarked | app/services/integration_dispatcher.py:169-224 | With a faultless network the multi-request protocol succeeds and does exactly what the protocol-free description says: patch the first match (contact before lead), or create. |
| Crm.MarkedIdempotent | app/services/integration_dispatcher.py:115-144 | Delivering the same opt-out again changes nothing: the created or patched record is the one the next search finds first. |
| Crm.RetryConvergence | app/core/worker.py:82-127 | Any number of attempts at one opt-out, each failing anywhere, leave the account untouched or as after one clean dispatch; once one succeeds it is the latter, so at most one record is created. |
| Crm.HubSpotDispatchMeaning | app/services/integration_dispatcher.py:118-144 | A completed HubSpot dispatch flags the first matching contact, or one new contact holding only the identifier if none matches; it keeps that contact's identifiers, clears its other flag, and touches nothing else. |
| Crm.SalesforceDispatchMeaning | app/services/integration_dispatcher.py:174-224 | A completed Salesforce dispatch flags the first matching contact, else the first matching lead, else one new lead; it keeps that record's identifiers and other flag, and touches nothing else. |
| Crm.FirstMatch | app/services/integration_dispatcher.py:163-172 | The search returns the first record whose field of the identifier's kind equals it, and None only if there is no such record. |
| Crm.EmailSearched | app/services/integration_dispatcher.py:93-104 | An identifier with "@" is searched in the email field: the result is the first record with that email, None if and only if there is none. |
| Crm.PhoneSearched | app/services/integration_dispatcher.py:163-166 | Any other identifier is likewise searched in the phone field, in all three tables. |
| Crm.HubSpotEmailOptOut | app/services/integration_dispatcher.py:118-144 | A HubSpot email opt-out leaves the first contact with that email with its email flag set and its call flag clear; without one exactly such a contact, with no phone, is appended. |
| Crm.HubSpotPhoneOptOut | app/services/integration_dispatcher.py:118-144 | A HubSpot phone opt-out does the same with the fields exchanged. |
| Crm.SalesforceEmailOptOut | app/services/integration_dispatcher.py:174-222 | A Salesforce email opt-out sets the email flag of the first such contact, else of the first such lead, and keeps the call flag; without either exactly one such lead is appended. |
| Crm.SalesforcePhoneOptOut | app/services/integration_dispatcher.py:174-222 | A Salesforce phone opt-out does the same with the fields exchanged. |
| Crm.FlaggedFields | app/services/integration_dispatcher.py:123-128 | What the safety theorems mean by a flagged record: the email and its flag for an identifier with "@", the phone and its flag for any other. |
| Crm.HubSpotReplyExactly | app/services/integration_dispatcher.py:107-146 | A HubSpot dispatch succeeds if and only if neither of its two requests is lost; otherwise its error is that of the lost one. |
| Crm.SalesforceReplyExactly | app/services/integration_dispatcher.py:169-224 | A Salesforce dispatch succeeds if and only if none of its two or three requests is lost, three unless a contact is found. |
| Crm.PostReplyExactly | app/services/integration_dispatcher.py:259-291 | A single post succeeds if and only if it is not lost, and reaches no record table. |
| Dispatcher.SalesforceProtocolExactly | app/services/integration_dispatcher.py:41-68 | The Salesforce protocol runs for exactly the existing, active Salesforce integrations whose token is not a mock credential of the running mode. |
| Dispatcher.HubSpotProtocolExactly | app/services/integration_dispatcher.py:41-83 | The HubSpot protocol likewise runs for exactly the existing, active HubSpot integrations whose token is not a mock credential of the running mode. |
| Dispatcher.MockTokenExactly | app/services/integration_dispatcher.py:17-24 | A token is a mock credential if and only if in lower case it is "mock" or ends in "_mock_token"; the other tokens the source lists add nothing. |
| Dispatcher.StrictRefusesExactly | app/services/integration_dispatcher.py:45-51 | Strict mode fails an attempt without any request if the token has that form; otherwise both CRM protocols run, also without a token. |
| Dispatcher.PostsExactly | app/services/integration_dispatcher.py:226-273 | GoHighLevel posts if and only if there is a token that is no mock credential of the mode, a webhook if and only if there is a URL and no mock token in strict mode; unknown types fail. |
| Dispatcher.EarlySuccessExactly | app/services/integration_dispatcher.py:41-83 | A result without a request is a success if and only if the integration is inactive or, outside strict mode, has the mock token of its own CRM. |
| Dispatcher.DispatchToHubSpot | app/services/integration_dispatcher.py:77-146 | The imperative calls refine the protocol step by step: same account, same reply, for every fault pattern; the account is untouched or fully marked. |
| Dispatcher.DispatchToSalesforce | app/services/integration_dispatcher.py:148-224 | The same for the contact, lead, create cascade. |
| Dispatcher.Dispatch | app/services/integration_dispatcher.py:34-75 | The guards and the choice by type, against the protocol; an early result sends no request at all. |
| Dispatcher.Client.Search | app/services/integration_dispatcher.py:107-116 | A search consumes one network outcome and returns the first match if its response arrives. |
| Dispatcher.Client.Write | app/services/integration_dispatcher.py:129-143 | A write consumes one network outcome; it changes the account exactly when it takes effect, which a lost response does not reveal. |
| Queue.EligibleAmong | app/core/worker.py:49-60 | The select returns exactly the PENDING rows and the FAILED rows with retries left whose retry time has come, each once. |
| Queue.EligibleExactly | app/core/worker.py:49-60 | The ids are those of exactly the rows in the where clause of the query, column by column. |
| Queue.CycleOnBatch | app/core/worker.py:67-133 | What a cycle makes of each row of its batch: settled once with the result of its own attempt if that was committed before the crash, otherwise PROCESSING. |
| Queue.CycleOffBatch | app/core/worker.py:49-133 | A cycle changes no row that was not eligible at its start. |
| Queue.CycleLog | app/core/worker.py:94-118 | A cycle appends to failed_syncs exactly one row per committed failure, in batch order, with the incremented retry count. |
| Queue.AttemptLogsNewCount | app/core/worker.py:90-118 | An attempt logs nothing if it succeeds, otherwise one row with the retry count, maximum and error of the row it commits. |
| Worker.SelectEligible | app/core/worker.py:45-63 | The select loop computes the eligible batch. |
| Worker.ClaimTasks | app/core/worker.py:68-71 | The claim changes the status of the batch's rows to PROCESSING, and nothing else. |
| Worker.DispatchTask | app/core/worker.py:82-84 | Dispatching one row changes only the account of its integration, as the protocol says. |
| Worker.CommitResult | app/core/worker.py:84-133 | Success completes the row; failure increments, logs, and gives up or schedules the next attempt after factor times 2 to the retries. |
| Worker.AttemptTask | app/core/worker.py:74-133 | One task in its own transaction: dispatch and commit equal the attempt function on the whole state. |
| Worker.AttemptTasks | app/core/worker.py:73-133 | The attempt loop, cut off at any commit, equals the iterated attempt function. |
| Worker.ProcessPendingTasks | app/core/worker.py:43-133 | A whole cycle, complete or cut off anywhere, equals the cycle function on which all single-worker theorems rest. |
| OptOutService.ActiveIntegrations | app/services/optout_service.py:36-38 | The integrations a new opt-out fans out to. |
| OptOutService.StageTasks | app/services/optout_service.py:41-48 | The staging loop appends one PENDING task with no retries per listed integration. |
| OptOutService.CreateOptOut | app/services/optout_service.py:15-58 | All or nothing: the canonical identifier is stored and the tasks staged, or (no canonical form) nothing changes. |
| Registry.ActiveIds | app/services/optout_service.py:36-38 | Exactly the existing active integrations, each once. |
| Registry.IngestedExactly | app/services/optout_service.py:24-50 | An accepted opt-out adds its row and tasks that are PENDING, due at once and have none of five retries used, and changes nothing else; a refused one changes nothing at all. |
| Integrations.CreateIntegration | app/api/v1/endpoints/integrations.py:13-31 | A new integration gets an id never used before; nothing else changes. |
| Integrations.UpdateIntegration | app/api/v1/endpoints/integrations.py:54-73 | The toggle changes the active flag of a known integration only, and reports unknown ids. |
| Integrations.DeleteIntegration | app/api/v1/endpoints/integrations.py:75-88 | Deletion removes the integration and leaves all staged tasks. |
| Runs.FrozenForever | app/core/worker.py:49-57 | In single-worker runs a terminal row, and a PROCESSING row left by a crash, never changes again. |
| Runs.CrashPartition | app/core/worker.py:67-133 | A cycle cut off before its k-th commit settles exactly the first part of its batch and strands exactly the rest, PROCESSING with all other columns unchanged, through every later run. |
| Runs.CompleteCycle | app/core/worker.py:49-133 | A complete cycle settles every eligible row (COMPLETED with the same retry count, or one retry more), leaves none PROCESSING, and changes no other row. |
| Runs.CycleUsesPotential | app/core/worker.py:90-127 | The retries left in non-terminal rows fall by at least one per committed attempt of a cycle. |
| Runs.AttemptsBounded | app/core/worker.py:49-127 | Without new opt-outs the attempts committed in a run of any length are bounded by the retries left at its start. |
| Runs.FailedIsRetriedWhenDue | app/core/worker.py:52-56 | A complete cycle attempts a FAILED row if and only if its retry time has come: none is ineligible for good. |
| Runs.TerminalByDeadline | app/core/worker.py:120-127 | With cycle starts at most P apart, a task with m max retries created at c is terminal once a cycle has started after c + (m-1)*P + f*(2^m - 2). |
| Runs.TerminalAtDeadline | app/core/worker.py:120-127 | Hence it is terminal at the time c + m*P + f*(2^m - 2): in the state left by the cycles up to then, when the next one starts later. |
| Runs.DeletedTargetExhausts | app/core/worker.py:82-127 | After deletion each attempt fails; the row has failed once more per selection and is MAX_RETRIES_EXCEEDED exactly when the count reaches the maximum, never COMPLETED. |
| Runs.PausedTargetCompletes | app/services/integration_dispatcher.py:41-43 | A task attempted while its integration is inactive is COMPLETED, its attempt sends no request and reaches no account, and it stays COMPLETED through every later run, reactivation included. |
| StoredIdentifiers.StoredIdentifiersStayCanonical | app/services/optout_service.py:16-31 | Whatever raw identifiers a run ingests, every stored identifier is a fixed point of the normalisation. |
| Marks.AccountIsMarks | app/core/worker.py:43-133 | Over any run, with ingestion, shared accounts, toggles, deletions, request faults and crashes, an account ends as the initial one with a sequence of clean deliveries applied; nothing else ever happens to it. |
| Marks.CompletedIsMarked | app/core/worker.py:82-88 | Every delivery by which the run completes a task, through a HubSpot or Salesforce integration of that account, occurs in the sequence. |
| Marks.MarksAreStored | app/services/optout_service.py:15-58 | Every delivery in the sequence is that of a stored opt-out's identifier. |
| SingleRecord.RunMakesNoDuplicate | app/services/integration_dispatcher.py:107-144 | Over any such run and for every identifier: the number of matching HubSpot contacts, and of matching Salesforce contacts and leads together, stays, or goes from none to one. |
| SingleRecord.CompletedHasOneRecord | app/services/integration_dispatcher.py:163-224 | A completed delivery has its record at the end of the run, exactly one if there was at most one before, in Salesforce with the flag set. |
| Convergence.DeliveredOnceExactly | app/core/worker.py:43-133 | Corollary for an account that one task alone reaches: over any run of cycles it ends untouched or exactly as after one clean dispatch, and as the latter if the task is COMPLETED. |
| Machine.NextKeepsShape | app/core/worker.py:43-133 | Every step of every worker and of the environment keeps all references between tables, batches and flights valid. |
| Machine.Extend | app/core/worker.py:28-39 | A run continues with every step enabled at its end, so the counterexample runs and simulated cycles are runs. |
| Exclusion.NextKeepsExclusive | app/core/worker.py:45-71 | If nobody selects between another worker's select and claim commit, every step keeps live batches disjoint and their rows as their workers left them. |
| Exclusion.StepExclusiveExactly | app/core/worker.py:45-71 | From a world with the invariant, a step keeps it, and keeps live batches disjoint, if and only if it is not a select between another worker's select and claim commit. |
| Exclusion.RunExclusiveExactly | app/core/worker.py:45-71 | A run keeps live batches disjoint, and the invariant, in every world it passes through if and only if its claim phases do not interleave. |
| Exclusion.NoTaskInTwoBatches | app/core/worker.py:67-71 | Over every run with non-interleaving claims, for any number of workers, no task is in two live batches. |
| Exclusion.CommitsOverwriteNothing | app/core/worker.py:74-133 | Then a commit finds the PROCESSING row its own transaction read, so it settles that row: no increment is lost, no completion overwritten. |
| Exclusion.InterleavedClaimsLoseRetry | app/core/worker.py:45-71 | Two interleaved claims reach a state with two logged failures and a retry count of one. |
| Exclusion.InterleavedClaimsUndoCompletion | app/core/worker.py:45-71 | Two interleaved claims reach a state in which a task completed by one worker is FAILED. |
| Accounting.RunKeepsLedger | app/core/worker.py:84-133 | The accounting and timing invariant is kept by every run with non-interleaving claims, from any state that satisfies it. |
| Accounting.AccountingInvariant | app/core/worker.py:84-133 | In every reachable state, crashes included, retry_count is the starting value plus the task's failed_syncs rows, and lies where the status requires. |
| Accounting.LogRecordsAttempts | app/core/worker.py:91-118 | In every reachable state the n-th failed_syncs row of a task holds the retry count start + n, counting from 1, and the task's maximum. |
| Accounting.CommitLogsNewCount | app/core/worker.py:90-133 | In an exclusive world with any number of workers, a committed failure logs the retry count and the error of the row it leaves. |
| Accounting.StepCountedExactly | app/core/worker.py:90-133 | Without any hypothesis on claims: a step keeps retry_count equal to starting value plus logged failures if and only if it does not commit a failure over a count that changed since it was read. |
| Accounting.RunCountedExactly | app/core/worker.py:90-133 | A whole run loses no retry increment of a task if and only if it never does that. |
| Accounting.CompletionSurvivesExactly | app/core/worker.py:85-124 | A commit leaves a COMPLETED row COMPLETED if and only if it is a success itself or settles the very status its transaction read. |
| Accounting.BackoffLowerBound | app/core/worker.py:120-127 | When a task can be selected for attempt k, the clock is at least f*(2^k - 2^(start+1)) past its first failure; for a task staged with 0 retries that is stated as f*(2^k - 2). |
| Delivery.SalesforceSafety | app/services/integration_dispatcher.py:148-224 | In every reachable state of any interleaving with faults and crashes, a task COMPLETED through a real Salesforce integration has a contact or lead with its identifier and flag. |
| Delivery.HubSpotSafety | app/services/integration_dispatcher.py:107-146 | In every reachable state of any interleaving with faults and crashes, a task COMPLETED through a real HubSpot integration has a contact with its identifier (its flag may since have been cleared). |
| Delivery.RecordsForever | app/services/integration_dispatcher.py:118-220 | No step ever removes a record of either CRM or changes its identifiers, or clears a Salesforce flag. |
| HubSpotWrites.LastWriterDecides | app/services/integration_dispatcher.py:123-141 | Over any run, a contact that was patched or created has exactly one flag set, that of the last write that took effect on it; every other contact keeps its flags. |
| HubSpotWrites.HubSpotKeepsFlagExactly | app/services/integration_dispatcher.py:118-130 | A completed dispatch for y keeps the flag of x on a contact if and only if it does not write that contact with an identifier of the other kind. |
| HubSpotWrites.HubSpotOptOutCanBeLost | app/services/integration_dispatcher.py:123-128 | A delivered email opt-out is cleared by a delivered phone opt-out of the same contact. |
| Overtaking.StepSingleExactly | app/services/integration_dispatcher.py:107-144 | From at most one record of an identifier in each CRM, a step of any worker makes a second one if and only if it is a create of the identifier that takes effect on an account that has its record by then. |
| Overtaking.RunSingleExactly | app/services/integration_dispatcher.py:107-144 | Over any run of any number of workers that starts with no attempt under way, an identifier keeps at most one HubSpot contact and one Salesforce record if and only if no worker's create takes effect that was overtaken, that is, after whose unsuccessful search another worker's create of the same record took effect. |
| Overtaking.UncontendedKeepsSingle | app/services/integration_dispatcher.py:107-224 | In particular it does so if no request for the identifier is sent while another worker is at the same identifier of the same account. |
| Duplicates.TwoWorkersDuplicate | app/services/integration_dispatcher.py:107-144 | From an initial world with one PENDING task, a run of two workers whose claims never interleave, during which the same number opts out again, ends with two contacts of that number in an account that had none: both search before either creates. |
| Dormancy.DormantForever | app/core/worker.py:49-57 | Under any interleaving, a row not eligible by status and in no live batch keeps its value for ever. |
| Dormancy.CrashStrands | app/core/worker.py:67-133 | A worker that dies after its claim leaves every row of its batch PROCESSING for ever, whatever other workers do. |
| Dormancy.TerminalForever | app/core/worker.py:49-57 | With non-interleaving claims so far, COMPLETED and given-up tasks keep every column for ever. |
| Dormancy.NoRequestAfterDeletion | app/api/v1/endpoints/integrations.py:75-88 | Once a task's integration is deleted and no earlier attempt is under way, no run sends another request for the task. |
| FanOut.IngestCovers | app/services/optout_service.py:35-48 | Ingesting gives the opt-out exactly one task for each integration active at that moment and none for others. |
| FanOut.FanOutConserved | app/services/optout_service.py:35-50 | Over any later run, whatever is toggled, deleted or attempted, these tasks are neither duplicated nor dropped. |
| FanOut.StatusCountsConserved | app/models/task.py:12 | Over any run the five status counts sum to the initial tasks plus those staged by each ingestion. |
| Simulation.CycleIsARun | app/core/worker.py:43-133 | Every single-worker cycle, complete or crashed, is a run of the many-worker system that leaves the other workers alone. |
| Wakeup.NoLostWakeup | app/core/worker.py:28-39 | While the loop runs, a trigger at any point is followed by a whole new cycle after at most seven of the loop's own steps, and the loop never waits before that. |
| Wakeup.PickedPromptlyExactly | app/core/worker.py:34-39 | A committed task is selected without a poll timeout if and only if at its commit the event is set, or a select is still ahead. |
| Wakeup.TriggerServesOwnTaskExactly | app/services/optout_service.py:54-58 | Trigger, k steps of the loop, then the commit: the committed task is selected without a poll timeout if and only if k is less than the steps in which the loop uses up the wake-up. |
| Wakeup.TriggerBeforeCommitCanMiss | app/services/optout_service.py:54-58 | A run in which the trigger is used up before the commit and the loop waits with the task unselected. |
| Wakeup.TimeoutPicksUp | app/core/worker.py:36-39 | A poll timeout then leads to a select of every committed task within three of the loop's steps, whatever triggers and commits come in between. |
| Wakeup.FirstCyclePicks | app/core/worker.py:28-39 | In every run after a task's commit, with any triggers, commits, timeouts and stops: once the first cycle begun after it is past its select, the task is selected. |
| Wakeup.StopEndsLoop | app/core/worker.py:28-41 | After a stop no cycle begins any more, whatever triggers and commits come; the one under way is finished, and the loop ends within five of its steps or halts in a wait without the event. |
| Normalizer.PhoneChars | app/core/normalizer.py:9 | The substitution keeps exactly the digits and plus signs. |
| Normalizer.CanonicalIsFixed | app/services/optout_service.py:16-22 | The stored identifier is a fixed point of the service's normalisation, and the "@" test on it agrees with the branch taken. |
| Normalizer.EmailFirstIsHarmless | app/api/v1/endpoints/ingest.py:136-139 | Pre-normalising as an email never changes what is stored, for any text. |
| Normalizer.PhoneFirstChangesExactly | app/api/v1/endpoints/ingest.py:56-64 | Pre-normalising as a phone changes what is stored if and only if the text has an "@" and a digit or plus sign. |
| Normalizer.PunctuationIsIgnored | app/core/normalizer.py:19-28 | Any punctuation of d, 1d and +1d for ten digits d stores "+1d". |
| Normalizer.PhoneStoredExactly | app/core/normalizer.py:4-28 | For every text without "@" whose digits and plus signs are d: d is stored if it starts with "+", "+1" and d for ten digits, "+" and d for any other number, nothing for none. |
| Normalizer.OtherCharDropped | app/core/normalizer.py:9 | Any other character is dropped wherever it stands. |
| Normalizer.PhoneCharsKept | app/core/normalizer.py:9 | Digits and plus signs are kept, in their order. |
| Normalizer.EmailStoredExactly | app/core/normalizer.py:30-34 | An address with any white space around it is stored in lower case, and nothing else of it changes. |
| Text.StripAround | app/services/optout_service.py:16 | Stripping removes the white space around a text and nothing else. |
| Text.CharsExactly | app/core/normalizer.py:9-34 | Which ASCII characters are white space and digits, and what lower makes of a capital. |
| Regex.EndsExactly | app/services/extraction.py:112-113 | The backtracking matcher is sound and complete for the language of a pattern, at every pair of positions. |
| Regex.SearchIsLeftmost | app/services/extraction.py:112-113 | The search returns a match at the leftmost position where any string of the language starts, or proves there is none. |
| Languages.AddressesExactly | app/services/extraction.py:112 | The email pattern describes exactly the texts local, "@", label, ".", tail over the characters of its three classes. |
| Languages.NumbersExactly | app/services/extraction.py:113 | The first alternative of the phone pattern describes exactly two to fifteen digits not starting with 0, with or without "+", and with or without "x" and digits. |
| Languages.PrintedExactly | app/services/extraction.py:113 | The second describes exactly three, three and four digits with optional parentheses and separators. |
| EmailSearch.SearchIsScan | app/services/extraction.py:112 | The leftmost-greedy search equals a linear scan for the first "@" with a local run before it and label, dot and tail after it, from the start of that run. |
| EmailSearch.NameAddrIsFound | app/api/v1/endpoints/ingest.py:124-126 | An address the pattern describes that stands in angle brackets after text without "@" is exactly what the search finds. |
| EmailSearch.NameAddrTextIsFound | app/api/v1/endpoints/ingest.py:123-125 | For every text name, "<", address, ">", rest (section 3.4 of RFC 5322) with no "@" in the name, the search finds exactly the address. |
| PhoneSearch.AlternativesExactly | app/services/extraction.py:113 | Where the phone pattern matches, the first alternative is taken whenever it fits; the second is used if and only if the match starts with "(" or "0". |
| PhoneSearch.PrintedIsFound | app/services/extraction.py:113 | After digit-free text, "(ddd) ddd-dddd" is found whole. |
| PhoneSearch.PrintedNormalizes | app/core/normalizer.py:9-20 | The printed form normalises to "+1" and its ten digits. |
| NumberSearch.NumberIsFound | app/services/extraction.py:113 | After text without a digit or "(", a number of two to fifteen digits not starting with 0, or the first fifteen of a longer run, is found exactly, with its plus if it has one. |
| NumberSearch.ExtendedNumberIsFound | app/services/extraction.py:113 | With "x" and digits behind it, the match takes in all of them. |
| Extraction.PrintedNumberExtracted | app/services/extraction.py:112-123 | In a text without an email match, a number so printed after digit-free text is extracted as "+1" and its digits. |
| Extraction.NumberExtracted | app/services/extraction.py:113-123 | In a text without an email match such a number is extracted as it stands with a plus; without one ten digits get "+1" and any other number of them "+". |
| Extraction.ExtensionExtracted | app/services/extraction.py:113-123 | The digits of an extension are extracted as if they were part of the number. |
| Extraction.NothingExtracted | app/services/extraction.py:115-123 | Without either match there is no target. |
| Extraction.BracketedAddressExtracted | app/services/extraction.py:118-120 | A bracketed address after text without "@" is extracted in its normalised form. |
| Extraction.IntentIsVerdict | app/services/extraction.py:47-50 | The early answer for the empty text agrees with the keyword verdict, so the verdict theorems hold of the public entry point. |
| Extraction.VerdictIgnoresStrip | app/services/extraction.py:96 | Stripping never changes the verdict. |
| Extraction.VerdictExactly | app/services/extraction.py:96-109 | A text is an opt-out, with confidence 0.95, if and only if it mentions one of fifteen words and phrases in any case, or "take" and also "off"; otherwise the confidence is 0. |
| Extraction.VerdictMonotone | app/services/extraction.py:96-108 | Any text that contains an opt-out text is an opt-out, despite lowering and stripping. |
| Extraction.EmailVerdictExactly | app/api/v1/endpoints/ingest.py:129-132 | An email is an opt-out if and only if its subject or body alone is, or one mentions "take" and the other "off". |
| Extraction.TwoKeywordsRedundant | app/services/extraction.py:99-108 | Dropping "take me off" and "take off" changes no verdict. |
| PathLookup.ResolvePath | app/api/v1/endpoints/ingest.py:16-27 | The loop, with its early return, computes the recursive lookup. |
| PathLookup.SplitConcat | app/api/v1/endpoints/ingest.py:20 | Splitting "p.q" gives the keys of p followed by those of q. |
| PathLookup.PathsCompose | app/api/v1/endpoints/ingest.py:16-27 | For all values and non-empty p and q, resolving "p.q" is resolving q in what p resolves to, falsy and non-dict intermediates included. |
| PathLookup.NestResolves | app/api/v1/endpoints/ingest.py:16-27 | A value nested along a path is what that path resolves to, for every non-empty path, empty keys included. |
| PathLookup.KeyResolves | app/api/v1/endpoints/ingest.py:18-26 | A path of one key gives the value under it and null where there is none, which by PathsCompose decides all longer paths. |
| PathLookup.NothingResolves | app/api/v1/endpoints/ingest.py:18-26 | The empty path gives null, and so does every path in a value that is no object. |
| PathLookup.FalsyExactly | app/api/v1/endpoints/ingest.py:18 | The falsy values are null, false, 0 and the empty text, list and object. |
| Handlers.IngestTwilio | app/api/v1/endpoints/ingest.py:30-89 | Without a body or without intent nothing changes; otherwise exactly the chosen identifier is handed to the service, or the request is rejected unchanged. |
| Handlers.FirstNonEmpty | app/api/v1/endpoints/ingest.py:109-120 | A chain of lookups joined by `or` gives the value of the first key that has a non-empty one. |
| Handlers.TwilioStores | app/api/v1/endpoints/ingest.py:55-64 | What is stored is the phone form of the extracted number or else of the sender; a text without digits falls back to the sender. |
| Handlers.TwilioStoresExactly | app/api/v1/endpoints/ingest.py:55-64 | For every extraction: the phone form of an extracted phone with a digit or plus sign is stored; without an extracted phone that of the sender; otherwise the canonical form of the sender, if any. |
| Handlers.IngestEmail | app/api/v1/endpoints/ingest.py:93-159 | Header, subject and body are chosen from JSON or form fields; without intent nothing changes; otherwise what is stored is the canonical form of the sender found in the header. |
| Handlers.EmailFieldsExactly | app/api/v1/endpoints/ingest.py:106-121 | The header is under "from" or else "sender", the body under "text" or else "body", and for JSON only then under "html"; empty values count as missing. |
| Handlers.EmailHandlerStoresAddress | app/api/v1/endpoints/ingest.py:123-136 | From "name <address>" exactly the canonical form of the address is stored. |
| Handlers.PlainHeaderStores | app/api/v1/endpoints/ingest.py:124-136 | A header without an address is itself stored in its canonical form. |
| Handlers.FindText | app/api/v1/endpoints/ingest.py:197-201 | The search loop, with its early exit, finds the value FirstText specifies. |
| Handlers.FirstText | app/api/v1/endpoints/ingest.py:197-201 | The value under the first of the usual text keys that is present, null if none is. |
| Handlers.TextKeysExactly | app/api/v1/endpoints/ingest.py:187-201 | The keys are "text", "body", "message", "content" and "msg", in that order, and any of them counts as a text to evaluate even if its value is empty. |
| Handlers.EvaluatedExactly | app/api/v1/endpoints/ingest.py:195-203 | The text at its path is evaluated if it is not empty, else the first usual one, and if that is empty too the whole payload. |
| Handlers.ExplicitComesFirst | app/api/v1/endpoints/ingest.py:173-178 | A phone or email at its path makes the old-style identifier irrelevant. |
| Handlers.IdentifierComesSecond | app/api/v1/endpoints/ingest.py:178-183 | Without them the identifier counts as the email if and only if it has an "@", otherwise as the phone. |
| Handlers.EvaluatedStores | app/api/v1/endpoints/ingest.py:213-233 | For an evaluated text, the handler's normalising, its fallbacks and the service's normalising together store: the canonical form of an explicit email that is not blank, else the phone form of an explicit phone with a digit or plus sign, else the form of the extracted target. |
| Handlers.RejectedExactly | app/api/v1/endpoints/ingest.py:225-232 | It is rejected if and only if the text so chosen has no "@", digit or plus sign. |
| Handlers.ChooseIdentifier | app/api/v1/endpoints/ingest.py:213-233 | The branches and the fallback choose an identifier whose stored form is the best form of EvaluatedStores. |
| Handlers.IngestGeneric | app/api/v1/endpoints/ingest.py:162-261 | Direct requests and evaluated texts: when the payload is skipped, rejected or stored, and for evaluated texts in which form. |
| Handlers.DirectRequestStores | app/api/v1/endpoints/ingest.py:189-226 | A direct request with an email stores its canonical form; with a phone it does so if and only if the text is not an address with digits or a plus sign. |
| Handlers.LegacyIdentifierStores | app/api/v1/endpoints/ingest.py:178-194 | A payload with only the old-style identifier takes the direct route and stores its canonical form. |

## Left out

- Runs.TerminalByDeadline: assumes runs without a crash (a crash may strand the task for ever, see
  Runs.CrashPartition), commits at the time the cycle started, and P > 0.
- Convergence.DeliveredOnceExactly: is about a task whose account no other task reaches, and about runs that
  neither ingest (which would stage another task for the same account) nor pause nor delete its integration;
  Marks.AccountIsMarks is the general statement without these assumptions.
- SingleRecord.RunMakesNoDuplicate: is about one worker; Overtaking.RunSingleExactly is about any number.
- Exclusion.NoTaskInTwoBatches: assumes that claim phases do not interleave, which the source does not
  enforce; Exclusion.RunExclusiveExactly proves the assumption necessary.
- Accounting.AccountingInvariant: under the same assumption, which the lost retry shows to be needed here too.
- Accounting.BackoffLowerBound: under the same assumption.
- Accounting.LogRecordsAttempts: under the same assumption.
- Delivery.SalesforceSafety: speaks of the integration as the completing attempt read it; later changes of
  its type or credentials are not modelled.
- Dispatcher.Client.Search: the first match in table order; other writers and the indexing delay of real CRMs are not modelled.
- Integrations.CreateIntegration: integrations have no name, so the answer to a duplicate name is not modelled.
  Integration ids are never reused, unlike SQLite row ids.
- Integrations.UpdateIntegration: only the active flag; patches of type, name and credentials are not modelled.
- Handlers.IngestGeneric: payloads that are JSON objects; `str()` of values that are not texts is a
  parameter, and the channel is one too.
- Handlers.IngestEmail: field values are texts; the recipient and timestamp fields are not modelled.
- Wakeup.NoLostWakeup: a cycle that raises counts as a cycle that ends; the start-up sleep and the
  cancellation at shutdown are not modelled. The loop is modelled on values, not as a `while` loop, because
  its property is about interleavings; the queue with many workers likewise.
- The check for a missing row (`app/core/worker.py:79-80`) and the early return on an empty batch: rows are never
  deleted, and an empty batch changes nothing anyway.
- Gemini: the extractor is an arbitrary function in the handlers; only the rule-based parser is modelled.
- GoHighLevel and webhook requests are single opaque posts that succeed or fail; bodies, headers, URLs and
  SOQL text are not modelled, and error texts are abbreviated.
- HTTP routing, request validation, Twilio signatures, API keys, sessions, logging, start-up seeding, the
  dashboard, list endpoints and health probes.
- The columns created_at, updated_at, raw_payload, reason and ip_address.
- Text outside ASCII, and E.164 validity, which the source does not enforce.
- Commits are atomic and the clock is monotone; the database's own locking, timeouts and lost connections are not modelled.
