# Conflict resolution and check-in parameters of the TFS integration

This project models two pieces of the TFS version-control plugin and proves properties of them.

- **The conflict resolver** (`ResolveConflictHelper`). It classifies conflicts between the local workspace and the server:
  - whether a conflict may be merged automatically;
  - whether it is a name conflict or a content conflict.

  It keeps a registry from each unresolved conflict to its workspace. It filters out conflicts already resolved. It resolves a conflict in one of four ways: accept merge, accept yours, accept theirs, skip. Resolving sends the resolution to the server, hands the server's get batch and undo batch to the operation applier, and removes the conflict from the registry only when all of that succeeded.
- **The check-in parameters** (`CheckinParameters`). The constructor loads each server in turn:
  - the check-in note definitions, factorised by name and sorted by display order;
  - the team projects' policy compatibility and policy descriptors, discovered from the server's annotations.

  It then evaluates the policies of every server. It collects the required notes that are left blank. From that state it builds the validation message, the failure lists and the policy override. `createCopy` gives the commit dialog an independent copy.

Modules:

- `Wrappers`: Option, Result, Outcome.
- `ConflictModel`: the conflict record and the merge classifier, as pure functions.
- `ConflictResolution`: the registry and the resolver. The resolver is a class whose methods update the registry and append to logs of what was sent to the server, to the applier and to the updated-files ledger.
- `CheckinNotes`: the `CheckinNote` class, factorisation, sorting and required-note validation.
- `CheckinPolicies`: policy discovery and evaluation. These are specification functions, and the constructor's loops are methods proved against them.
- `CheckinData`: the per-server record and the specifications of the read-only queries.
- `Checkin`: the `CheckinParameters` class.

Inputs the model does not compute:

- The server's answers, the annotation parsers' results and the collaborators' answers are parameters. These cover the name merge, the content merge and the content loading.
- Policy implementations are a registry function from policy type to plugin. `loadState` and `evaluate` are functions whose outcome is a normal result, an exception or a cancellation.

## Model

| member | source | states |
|---|---|---|
| ConflictModel.CanMerge | src/org/jetbrains/tfsIntegration/core/tfs/conflicts/ResolveConflictHelper.java:191-223 | never mergeable without a source item; otherwise mergeable exactly when your and the base change both hold a rename or edit outside a namespace conflict, or a non-folder merge conflict with an edited base has a local edit, is forced, or has moved versions |
| ConflictModel.EditedBaseMergeCases | src/org/jetbrains/tfsIntegration/core/tfs/conflicts/ResolveConflictHelper.java:208-219 | for a non-folder merge conflict with an edited base, forcing or a version skew makes it mergeable; with neither and no local edit, it is mergeable iff your change renames or edits |
| ConflictModel.FolderNeedsBothSidesChanged | src/org/jetbrains/tfsIntegration/core/tfs/conflicts/ResolveConflictHelper.java:201-221 | a folder is mergeable iff it has a source item and both sides renamed or edited outside a namespace conflict |
| ConflictModel.IsNameConflict | src/org/jetbrains/tfsIntegration/core/tfs/conflicts/ResolveConflictHelper.java:268-272 | a name conflict is exactly one where your change or the base change holds a rename; such a conflict has a rename or edit on some side |
| ConflictModel.IsContentConflict | src/org/jetbrains/tfsIntegration/core/tfs/conflicts/ResolveConflictHelper.java:274-278 | a content conflict is exactly one where your change or the base change holds an edit; such a conflict has a rename or edit on some side |
| ConflictModel.MergeableIsNameOrContentConflict | src/org/jetbrains/tfsIntegration/core/tfs/conflicts/ResolveConflictHelper.java:191-223 | a mergeable conflict is a name conflict or a content conflict |
| ConflictResolution.RegisteredAreListed | src/org/jetbrains/tfsIntegration/core/tfs/conflicts/ResolveConflictHelper.java:52-63 | the registry's keys are exactly the conflicts listed by some workspace, each mapped to a workspace that lists it |
| ConflictResolution.LastRegistrationWins | src/org/jetbrains/tfsIntegration/core/tfs/conflicts/ResolveConflictHelper.java:58-62 | the last workspace to list a conflict is the one it is registered with |
| ConflictResolution.Flatten | src/org/jetbrains/tfsIntegration/core/tfs/conflicts/ResolveConflictHelper.java:58-62 | the constructor's nested loops build the map of all registrations in iteration order; its keys are the listed conflicts, each with a workspace that lists it |
| ConflictResolution.UnresolvedMembers | src/org/jetbrains/tfsIntegration/core/tfs/conflicts/ResolveConflictHelper.java:280-289 | a conflict is kept iff it is in the input and not resolved, and the result is no longer than the input |
| ConflictResolution.GetUnresolvedConflicts | src/org/jetbrains/tfsIntegration/core/tfs/conflicts/ResolveConflictHelper.java:280-289 | succeeds iff no kept conflict has id 0, and then returns the unresolved conflicts in order; otherwise fails with the assertion error |
| ConflictResolution.AppliedBatches | src/org/jetbrains/tfsIntegration/core/tfs/conflicts/ResolveConflictHelper.java:240-262 | at most two applier calls in the conflict's workspace: the get batch first, forced only for accept-theirs; the undo batch always forced and attempted only after a clean get batch |
| ConflictResolution.ApplyOutcome | src/org/jetbrains/tfsIntegration/core/tfs/conflicts/ResolveConflictHelper.java:240-262 | resolution passes iff no applied batch reports errors; a failure carries the non-empty errors of the first failing batch |
| ConflictResolution.SourceOrTarget | src/org/jetbrains/tfsIntegration/core/tfs/conflicts/ResolveConflictHelper.java:164-165 | the source item when there is one, else the target item |
| ConflictResolution.TargetOrSource | src/org/jetbrains/tfsIntegration/core/tfs/conflicts/ResolveConflictHelper.java:174-175 | the target item when there is one, else the source item |
| ConflictResolution.ResolveConflictHelper.constructor | src/org/jetbrains/tfsIntegration/core/tfs/conflicts/ResolveConflictHelper.java:52-63 | the registry holds exactly the listed conflicts, each with a workspace that lists it (the last one to list it), and the logs start empty |
| ConflictResolution.ResolveConflictHelper.Conflicts | src/org/jetbrains/tfsIntegration/core/tfs/conflicts/ResolveConflictHelper.java:187-189 | returns exactly the registered conflicts |
| ConflictResolution.ResolveConflictHelper.ConflictResolved | src/org/jetbrains/tfsIntegration/core/tfs/conflicts/ResolveConflictHelper.java:225-266 | an unregistered conflict fails with nothing sent; otherwise the resolution is submitted, and the conflict leaves the registry, with a merge recorded in the ledger, exactly when the reply and both batches succeed; on failure the registry and ledger are unchanged |
| ConflictResolution.ResolveConflictHelper.ApplyReply | src/org/jetbrains/tfsIntegration/core/tfs/conflicts/ResolveConflictHelper.java:240-262 | appends exactly the applier calls of the answer to the log and returns the first batch error; nothing else changes |
| ConflictResolution.ResolveConflictHelper.AcceptMerge | src/org/jetbrains/tfsIntegration/core/tfs/conflicts/ResolveConflictHelper.java:65-161 | fails unchanged when the conflict cannot be merged, or when it is a content conflict on a file whose revisions cannot be loaded (nothing is loaded for a folder); resolves iff it can be merged, is registered, the name merge gives a name, the content of a file merges fully and the server's reply applies cleanly, and then submits the merged name, applies the reply's batches, records the merge in the ledger and drops the conflict; returns not-resolved, changing nothing, exactly when the name merge is cancelled or the content merge does not complete |
| ConflictResolution.ResolveConflictHelper.AcceptYours | src/org/jetbrains/tfsIntegration/core/tfs/conflicts/ResolveConflictHelper.java:163-171 | an unregistered conflict fails with nothing changed; otherwise submits AcceptYours and applies the reply's batches, with the ledger passed along; passes iff the reply applies cleanly, and then the conflict leaves the registry and its source-or-target path is recorded as skipped; on failure the registry and ledger are unchanged |
| ConflictResolution.ResolveConflictHelper.AcceptTheirs | src/org/jetbrains/tfsIntegration/core/tfs/conflicts/ResolveConflictHelper.java:173-177 | an unregistered conflict fails with nothing changed; otherwise submits AcceptTheirs and applies the reply's batches with the get batch forced; passes iff the reply applies cleanly, and then the conflict leaves the registry; the method adds no ledger entry of its own, and the applier gets the ledger, as in acceptYours |
| ConflictResolution.ResolveConflictHelper.Skip | src/org/jetbrains/tfsIntegration/core/tfs/conflicts/ResolveConflictHelper.java:179-185 | records the item as skipped when a ledger is kept, and changes nothing else |
| CheckinNotes.AsWrittenComparatorMisorders | src/org/jetbrains/tfsIntegration/checkin/CheckinParameters.java:168 | the subtracting comparator, in 32-bit arithmetic, orders the smallest display order after 1 |
| CheckinNotes.AsWrittenComparatorWithoutOverflow | src/org/jetbrains/tfsIntegration/checkin/CheckinParameters.java:168 | without overflow the subtracting comparator gives the true difference |
| CheckinNotes.CompareDisplayOrder | src/org/jetbrains/tfsIntegration/checkin/CheckinParameters.java:168 | the result is negative, zero or positive exactly when the first display order is smaller, equal or greater |
| CheckinNotes.FactorizedKeys | src/org/jetbrains/tfsIntegration/checkin/CheckinParameters.java:160-165 | the factorised map holds every declared name once, with one of that name's own definitions |
| CheckinNotes.LastRequiredWins | src/org/jetbrains/tfsIntegration/checkin/CheckinParameters.java:160-165 | the last required definition of a name is the one kept |
| CheckinNotes.FirstKeptWhenNoneRequired | src/org/jetbrains/tfsIntegration/checkin/CheckinParameters.java:160-165 | when no definition of a name is required, its first definition is kept |
| CheckinNotes.RequiredIfAnyRequired | src/org/jetbrains/tfsIntegration/checkin/CheckinParameters.java:160-165 | a name is required as soon as one team project requires it |
| CheckinNotes.EarliestExists | src/org/jetbrains/tfsIntegration/checkin/CheckinParameters.java:167-168 | a non-empty set of names has one that comes first in display order |
| CheckinNotes.SortByDisplayOrder | src/org/jetbrains/tfsIntegration/checkin/CheckinParameters.java:167-168 | the result holds each factorised definition exactly once, in non-decreasing display order |
| CheckinNotes.FactorizeNotes | src/org/jetbrains/tfsIntegration/checkin/CheckinParameters.java:160-168 | one definition per declared name, the one factorisation keeps, sorted by display order, with no name twice |
| CheckinNotes.CreateNotes | src/org/jetbrains/tfsIntegration/checkin/CheckinParameters.java:169-172 | one fresh, distinct note object per definition, with its name and flag and no value |
| CheckinNotes.CopyNotes | src/org/jetbrains/tfsIntegration/checkin/CheckinParameters.java:599-616 | fresh, distinct note objects with the same names, flags and values |
| CheckinNotes.EmptyNoteNamesMembers | src/org/jetbrains/tfsIntegration/checkin/CheckinParameters.java:443-453 | a name is reported iff some note of that name is required and empty or blank |
| CheckinNotes.CollectEmptyNotes | src/org/jetbrains/tfsIntegration/checkin/CheckinParameters.java:445-451 | the loop collects the names of the missing notes, in note order |
| CheckinPolicies.OverridesShape | src/org/jetbrains/tfsIntegration/checkin/CheckinParameters.java:180-198 | the overrides stage keeps the project set, adds no policies, only widens the found flags, and marks a format found for every project using it |
| CheckinPolicies.PoliciesComplete | src/org/jetbrains/tfsIntegration/checkin/CheckinParameters.java:200-243 | a policies stage that runs to the end appends to each project exactly the enabled descriptors of its own annotations if it uses the format, nothing otherwise, and changes nothing else |
| CheckinPolicies.PoliciesSound | src/org/jetbrains/tfsIntegration/checkin/CheckinParameters.java:200-243 | however a policies stage ends short of a crash, it only adds enabled descriptors of the project's own annotations, to a project using the format |
| CheckinPolicies.DiscoveryComplete | src/org/jetbrains/tfsIntegration/checkin/CheckinParameters.java:175-243 | when discovery runs to the end, each project holds the enabled descriptors of its Team Explorer annotations and then of its Teamprise annotations, each only if its compatibility uses that format |
| CheckinPolicies.DiscoverySound | src/org/jetbrains/tfsIntegration/checkin/CheckinParameters.java:175-243 | unless discovery crashes, every project keeps its entry, and each policy it holds is enabled and comes from its own annotations of a format it uses |
| CheckinPolicies.DiscoveryKeepsProjects | src/org/jetbrains/tfsIntegration/checkin/CheckinParameters.java:175-178 | discovery that does not crash keeps an entry for every team project |
| CheckinPolicies.AddEnabled | src/org/jetbrains/tfsIntegration/checkin/CheckinParameters.java:213-217 | appends exactly the enabled descriptors, in order |
| CheckinPolicies.ApplyPolicyAnnotations | src/org/jetbrains/tfsIntegration/checkin/CheckinParameters.java:200-243 | the annotation loop of one format equals the policies stage function |
| CheckinPolicies.DiscoverPolicies | src/org/jetbrains/tfsIntegration/checkin/CheckinParameters.java:175-243 | the discovery code of the constructor equals the discovery function |
| CheckinPolicies.DescriptorStep | src/org/jetbrains/tfsIntegration/checkin/CheckinParameters.java:296-341 | a duplicate id, and only that, breaks with a duplicate failure; a missing implementation is reported only under the non-installed flag; a failed state load is reported and not evaluated; a cancelled state load or evaluation cancels; a failing evaluation adds one cannot-evaluate failure and goes on; an evaluation's reports are added as they are |
| CheckinPolicies.DuplicateIdStopsProject | src/org/jetbrains/tfsIntegration/checkin/CheckinParameters.java:296-301 | a duplicate id adds exactly one failure, last, and the project's later descriptors are not looked at |
| CheckinPolicies.NoNotInstalledUnlessWarned | src/org/jetbrains/tfsIntegration/checkin/CheckinParameters.java:303-308 | without the non-installed flag no not-installed failure is produced |
| CheckinPolicies.NotInstalledReported | src/org/jetbrains/tfsIntegration/checkin/CheckinParameters.java:303-308 | with the flag, a reached descriptor without an implementation is reported with its type and whether it is stateless |
| CheckinPolicies.CancellationAborts | src/org/jetbrains/tfsIntegration/checkin/CheckinParameters.java:312-341 | a cancellation reached in any project aborts the whole server's evaluation |
| CheckinPolicies.ProjectCancelled | src/org/jetbrains/tfsIntegration/checkin/CheckinParameters.java:312-341 | a cancellation reached among a project's descriptors aborts that project |
| CheckinPolicies.EvaluateServer | src/org/jetbrains/tfsIntegration/checkin/CheckinParameters.java:286-345 | the evaluation loop of one server equals the server-failures function |
| CheckinData.DataOf | src/org/jetbrains/tfsIntegration/checkin/CheckinParameters.java:92 | the data returned is stored for that server, and is the only data stored for it when servers are distinct |
| CheckinData.ContextOf | src/org/jetbrains/tfsIntegration/checkin/CheckinParameters.java:350-378 | a policy sees the server's files and the commit message |
| CheckinData.AllFailuresMembers | src/org/jetbrains/tfsIntegration/checkin/CheckinParameters.java:539-550 | a failure is among all failures iff some server's failure list holds it |
| CheckinData.AllFailuresLength | src/org/jetbrains/tfsIntegration/checkin/CheckinParameters.java:539-550 | all failures are at least as many as any one server's |
| CheckinData.BlocksShape | src/org/jetbrains/tfsIntegration/checkin/CheckinParameters.java:394-441 | server headers only when there are several servers, warnings only when checked, never the not-evaluated notice |
| CheckinData.BlocksNotesSound | src/org/jetbrains/tfsIntegration/checkin/CheckinParameters.java:408-427 | every notes part is some server's non-empty list, under an error filter, plural iff it has several names |
| CheckinData.BlocksNotesComplete | src/org/jetbrains/tfsIntegration/checkin/CheckinParameters.java:408-427 | every server with blank required notes gets its notes part when errors are checked |
| CheckinData.BlocksEmpty | src/org/jetbrains/tfsIntegration/checkin/CheckinParameters.java:408-437 | the server parts are empty iff no server reports notes or warnings |
| CheckinData.NotEvaluatedNotice | src/org/jetbrains/tfsIntegration/checkin/CheckinParameters.java:398-406 | the not-evaluated notice appears iff warnings are asked for before evaluation and some project uses policies |
| CheckinData.NoWarningsBeforeEvaluation | src/org/jetbrains/tfsIntegration/checkin/CheckinParameters.java:394-441 | before evaluation no policy warning is reported |
| CheckinData.HeadersOnlyForSeveralServers | src/org/jetbrains/tfsIntegration/checkin/CheckinParameters.java:394-441 | server headers appear only with more than one server |
| CheckinData.RequiredNotesReported | src/org/jetbrains/tfsIntegration/checkin/CheckinParameters.java:394-441 | under an error filter every server's blank required notes are reported, plural iff several, and nothing else is reported as notes |
| CheckinData.MessageAbsentIffNothingQualifies | src/org/jetbrains/tfsIntegration/checkin/CheckinParameters.java:394-441 | no message iff nothing qualifies; its severity is Error iff some server reported notes |
| CheckinData.OverrideMapKeys | src/org/jetbrains/tfsIntegration/checkin/CheckinParameters.java:622-634 | the override map is keyed by exactly the failing policies' names |
| CheckinData.OverrideMapLastWins | src/org/jetbrains/tfsIntegration/checkin/CheckinParameters.java:622-634 | the last failure of a policy name is the one kept |
| Checkin.PoliciesOf | src/org/jetbrains/tfsIntegration/checkin/CheckinParameters.java:175-243 | a server's team-project entries follow its project list, each with the data discovery left for it |
| Checkin.CheckinParameters.constructor | src/org/jetbrains/tfsIntegration/checkin/CheckinParameters.java:97-105 | the copy constructor stores the given entries, flag and load error, with no override reason |
| Checkin.CheckinParameters.LoadServer | src/org/jetbrains/tfsIntegration/checkin/CheckinParameters.java:153-256 | a failing note query fails the load with its error; loading fails iff the query fails or discovery crashes; otherwise the server's data holds the factorised sorted notes, fresh with no value, its files, and its discovered team projects |
| Checkin.CheckinParameters.LoadServers | src/org/jetbrains/tfsIntegration/checkin/CheckinParameters.java:150-257 | succeeds iff no server fails to load, and then every entry is loaded from its input with no failures and unset notes |
| Checkin.CheckinParameters.CollectLoadErrors | src/org/jetbrains/tfsIntegration/checkin/CheckinParameters.java:245-259 | the load error is every server's parse error, in order |
| Checkin.CheckinParameters.Create | src/org/jetbrains/tfsIntegration/checkin/CheckinParameters.java:108-275 | no mappings fails; succeeds iff every server loads; the result is loaded from the inputs, validated, evaluated iff asked and no server's evaluation was cancelled, and then holds each server's failures; after a cancelled evaluation the servers before the cancelled one hold their failures and the rest hold none |
| Checkin.CheckinParameters.Assemble | src/org/jetbrains/tfsIntegration/checkin/CheckinParameters.java:259-274 | the constructor's end keeps the loaded entries, validates the notes, and evaluates iff asked and nothing was cancelled; after a cancelled evaluation the servers before the cancelled one hold their failures and the rest hold none, which `getPolicyOverride` can read |
| Checkin.CheckinParameters.EvaluatePolicies | src/org/jetbrains/tfsIntegration/checkin/CheckinParameters.java:285-348 | not cancelled iff every server's evaluation completes, and then every server holds its failures and the flag is set; on cancellation the servers before the cancelled one keep new failures, the rest their old ones, and the flag is unchanged |
| Checkin.CheckinParameters.ValidateNotes | src/org/jetbrains/tfsIntegration/checkin/CheckinParameters.java:443-453 | every server's empty-notes list is set from its notes' values, nothing else changes, and it is idempotent |
| Checkin.CheckinParameters.EvaluationEnabled | src/org/jetbrains/tfsIntegration/checkin/CheckinParameters.java:384-391 | true iff some team project of some server uses policies |
| Checkin.CheckinParameters.HasEmptyNotes | src/org/jetbrains/tfsIntegration/checkin/CheckinParameters.java:514-516 | true iff the server's empty-notes list is non-empty |
| Checkin.CheckinParameters.EmptyNotesMeanBlankRequired | src/org/jetbrains/tfsIntegration/checkin/CheckinParameters.java:443-453 | once validated, a server has empty notes iff one of its required notes is blank |
| Checkin.CheckinParameters.HasPolicyFailures | src/org/jetbrains/tfsIntegration/checkin/CheckinParameters.java:518-528 | true iff the server uses policies and they are not evaluated yet or have failures |
| Checkin.CheckinParameters.GetFailures | src/org/jetbrains/tfsIntegration/checkin/CheckinParameters.java:530-537 | empty before evaluation, for any server; the server's own failures after |
| Checkin.CheckinParameters.GetAllFailures | src/org/jetbrains/tfsIntegration/checkin/CheckinParameters.java:539-550 | empty before evaluation, every server's failures in order after |
| Checkin.CheckinParameters.FailuresAmongAll | src/org/jetbrains/tfsIntegration/checkin/CheckinParameters.java:530-550 | every failure of one server is among all failures |
| Checkin.CheckinParameters.AppendServerBlock | src/org/jetbrains/tfsIntegration/checkin/CheckinParameters.java:408-437 | appends one server's part and says whether it reported notes |
| Checkin.CheckinParameters.ServerBlocks | src/org/jetbrains/tfsIntegration/checkin/CheckinParameters.java:408-437 | the per-server loop yields every server's part in order and whether any reported notes |
| Checkin.CheckinParameters.GetValidationMessage | src/org/jetbrains/tfsIntegration/checkin/CheckinParameters.java:394-441 | the message equals the specification whose presence, notes, notice, headers and severity the lemmas above describe |
| Checkin.CheckinParameters.CreateCopy | src/org/jetbrains/tfsIntegration/checkin/CheckinParameters.java:599-616 | a fresh object with fresh note copies carrying the same values, the same files, projects, failures and flags, and no override reason |
| Checkin.CheckinParameters.SetOverrideReason | src/org/jetbrains/tfsIntegration/checkin/CheckinParameters.java:618-620 | sets the reason and nothing else |
| Checkin.CheckinParameters.GetPolicyOverride | src/org/jetbrains/tfsIntegration/checkin/CheckinParameters.java:622-634 | no reason gives nothing, for any server; a reason without failures is an error; otherwise the reason with the server's failures by policy name |
| Checkin.CheckinParameters.SetNoteValue | src/org/jetbrains/tfsIntegration/checkin/CheckinParameters.java:56-59 | the commit dialog's write to a note's public `value` field: that note of that server gets the new value, and no other object changes |
| Checkin.EditCopiedNote | src/org/jetbrains/tfsIntegration/checkin/CheckinParameters.java:599-616 | editing a note of a copy leaves every note value of the original as it was |

## Left out

- Server calls, the annotation parsers and the content loading are not modelled. Their results are inputs. The progress indicator is left out too.
- Cancellation while the constructor loads a server is not modelled. Only cancellation during policy evaluation is.
- File I/O of `acceptMerge` is not modelled: clearing the read-only attribute, the live local file, and loading the base, yours and theirs contents. The collaborators' answers are inputs.
- The wording and formatting of messages are left out. The validation message is a list of structured parts, and errors carry their data.
- The `HashMap` iteration order of the conflict and team-project maps is not modelled. The model iterates a team project's entries in the order of the server's project list.
- Work items and the project passed to `createPolicyContext` are not modelled, and neither is the `isUnderTFS` filtering of the files. The context carries the files and the commit message.
- The sort of servers by URI is not modelled. The inputs are taken to be in that order already, with distinct servers; `Create` requires distinct servers.
- Plugin state carried from one descriptor's `loadState` to the next `evaluate` is not modelled. Each evaluation sees the configuration of its own descriptor.
- Checkin.CheckinParameters.Create: does not state that the note objects of different servers are distinct fresh objects. It states their values and everything loading sets. Stating freshness over all pairs of notes made the proof too costly.
- Checkin.CheckinParameters.LoadServers: for the same reason it states only that the notes have no value, not that they are fresh.
- Conflicts are compared as values, where the registry of the source is keyed by conflict object: two distinct conflict objects with identical fields count as one conflict.
- The policy override map of `getPolicyOverride` is a map, so the insertion order the source's `LinkedHashMap` keeps is not modelled. It maps a policy name to the failure rather than to the failure's message.
- The team projects of a server are a list. The source collects them in a set, so they are distinct there. The model does not assume this; a repeated project in the input would give a repeated entry.
- In these places the model follows the code, which may not be what one expects:
  - `canMerge` tests only your change, not your local change, in its first branch;
  - `conflictResolved` stops at the first batch that reports errors, so the undo batch is not attempted after a failing get batch;
  - `acceptYours` applies the returned operations like any other resolution;
  - a cancelled evaluation in the constructor does not fail the construction; it leaves policies not evaluated.

## Findings

| source | as written | input that shows it | evidently intended | confidence | as-written member | corrected member |
|---|---|---|---|---|---|---|
| src/org/jetbrains/tfsIntegration/checkin/CheckinParameters.java:168 | the display-order comparator subtracts the two `int` display orders, which overflows | display orders -2147483648 and 1: the difference wraps to 2147483647, so the smaller one is sorted after the larger | compare the display orders without subtraction (`Integer.compare`) | not executed | CheckinNotes.AsWrittenComparatorMisorders | CheckinNotes.CompareDisplayOrder |
