# Workflow engine core, in Dafny

A model of the core of a small finite-state-machine workflow engine (an
ASP.NET service). Clients register workflow definitions: states, exactly one
of them initial, and actions that lead from a set of source states to one
target state. Clients then start instances of a definition and fire actions
on them. The model covers three parts:

- **The definition validator** (`ValidateDefinition` and its `ThrowIf*`
  helpers). It runs a fail-fast sequence of structural checks and reports
  the first rule that fails. It is modelled as pure functions returning an
  `Outcome`, together with the predicate `WellFormed` that says what a valid
  definition is without the checks. `ValidateDefinition(d) == Pass` holds
  exactly when `WellFormed(d)`, and a lemma pins down which error wins.
- **The execution engine**: three ordered guards on an action
  (`ValidateActionExecution`) and the in-place transition
  (`MoveInstanceToNewState`). The transition is a method that modifies the
  instance.
- **The service façade over the in-memory store.** `MemoryStorage` is a
  class with two `map` fields, one for definitions and one for instances,
  keyed by id. Its Save methods reassign those fields. `WorkflowService`
  holds the store and sequences lookups, validation and saves.
  `ExecuteAction` is written as its two phases: `ResolveExecution` does the
  lookups and guards and changes nothing, then the instance is moved and
  saved.

Failures are values, not exceptions. Each throw site of the source is one
constructor of `Error` (`failures.dfy`), grouped by the exception class the
source throws. `Result` and `Outcome` propagate a failure with `:-`, the way
an exception propagates.

Definitions, states, actions and history entries are datatypes, since the
core never changes them. `WorkflowInstance` is a class: the engine updates
its current state and history in place. The store holds references to
instances, so the instance `ExecuteAction` moves is the stored one, exactly
as in the source.

Two invariants are proved for the façade:

- `WorkflowService.Valid()`: every stored definition is `WellFormed`, and
  every stored instance names a stored definition. Every façade operation
  preserves it. Under it, execution never fails on a missing definition or
  on the unguarded state lookup of the final-state check
  (`Services/WorkflowServices.cs:182`), and `StartInstance` never fails on
  the unguarded initial-state lookup (`Models/WorkflowDefinition.cs:11`).
- `WorkflowService.InstancesInDefinedStates()`: every stored instance sits
  in a state of its definition. `StartInstance` and `ExecuteAction`
  preserve it. `CreateDefinition` preserves it only when the id is new (see
  below).

### Behaviour worth knowing in advance

- **Definition ids are not unique.** One would expect a definition id to
  name one definition for good. Instead `CreateDefinition` with an id that
  is already stored replaces the stored definition
  (`Storage/MemoryStorage.cs:12`). `Scenarios.RedefinitionRun` shows the
  consequence. An instance started from the first definition is left in a
  state the stored definition does not have. Executing an action on it is
  still refused on the action's sources, before the unguarded state lookup
  is reached.
- **Final-state errors need a listed source.** One would expect any action
  fired on an instance in a final state to fail as "final state". The
  source-state guard runs first (`Services/WorkflowServices.cs:109-111`).
  So an action that does not list the final state among its sources fails
  with `ActionNotAllowedFromState`. Only an action that lists it fails with
  `InstanceInFinalState` (`Scenarios.SubmitFinishedReview`,
  `Scenarios.ArchiveFinishedReview`).
- **Two initial-state errors.** The initial-state count check has two
  messages, one for no initial state and one for several
  (`Services/WorkflowServices.cs:130-133`). So the model has two errors,
  `NoInitialState` and `MultipleInitialStates`.

## Model

| member | source | states |
|---|---|---|
| Enumerable.FirstIndex | Models/WorkflowDefinition.cs:9-17 | the index First stops at: no earlier element satisfies the predicate, and the element there does, or the index is the length when none does |
| Enumerable.Where | Services/WorkflowServices.cs:129 | Where keeps every element satisfying the predicate, and every element it returns is an element of the input satisfying the predicate; it is no longer than its input |
| Enumerable.Elements | Services/WorkflowServices.cs:153 | ToHashSet holds exactly the elements of the list |
| Enumerable.WhereEmpty | Services/WorkflowServices.cs:129-131 | the Where count is 0 exactly when no element matches |
| Enumerable.WhereSeveral | Services/WorkflowServices.cs:129-133 | the Where count is above 1 exactly when two positions match |
| Enumerable.DistinctCount | Services/WorkflowServices.cs:136-148 | the distinct count never exceeds the count, and equals it exactly when no element repeats |
| Models.StateIds | Services/WorkflowServices.cs:138 | Select(s => s.Id): same length, position by position the state ids |
| Models.ActionIds | Services/WorkflowServices.cs:145 | Select(a => a.Id): same length, position by position the action ids |
| Models.WorkflowDefinition.GetInitialState | Models/WorkflowDefinition.cs:9-12 | succeeds exactly when some state is initial, and then returns the first initial state; otherwise fails with InitialStateNotFound |
| Models.WorkflowDefinition.GetAction | Models/WorkflowDefinition.cs:14-17 | succeeds exactly when some action has the id, and then returns the first such action; otherwise fails with ActionNotFound |
| Models.WorkflowInstance.constructor | Services/WorkflowServices.cs:37-41 | a new instance has the given id, definition id and current state, and an empty history |
| Storage.MemoryStorage.constructor | Storage/MemoryStorage.cs:7-8 | both dictionaries start empty |
| Storage.MemoryStorage.SaveDefinition | Storage/MemoryStorage.cs:10-13 | the definition is stored under its id, replacing any earlier one; every other id and the instance map are unchanged |
| Storage.MemoryStorage.GetDefinition | Storage/MemoryStorage.cs:15-19 | returns the definition stored under the id, or absent exactly when none is |
| Storage.MemoryStorage.GetAllDefinitions | Storage/MemoryStorage.cs:21-24 | returns every stored definition exactly once: one per stored id, each the one stored under its id |
| Storage.MemoryStorage.SaveInstance | Storage/MemoryStorage.cs:26-29 | the instance is stored under its id, replacing any earlier one; every other id and the definition map are unchanged |
| Storage.MemoryStorage.GetInstance | Storage/MemoryStorage.cs:31-35 | returns the instance stored under the id, or absent exactly when none is |
| Validation.IsNullOrWhiteSpace | Services/WorkflowServices.cs:115-119 | a string is blank exactly when every character is a .NET white-space character (the empty string included) |
| Validation.BlankIdsFollowCharIsWhiteSpace | Services/WorkflowServices.cs:115-119 | an id of no-break spaces, tabs and ideographic spaces is blank and rejected with EmptyId; an id with a zero-width space is not blank |
| Validation.CheckExactlyOneInitialState | Services/WorkflowServices.cs:127-134 | passes exactly when one state is initial; fails with NoInitialState exactly when none is and with MultipleInitialStates exactly when two are |
| Validation.CheckDuplicateStateIds | Services/WorkflowServices.cs:136-141 | passes exactly when the state ids are pairwise distinct, otherwise fails with DuplicateStateIds |
| Validation.CheckDuplicateActionIds | Services/WorkflowServices.cs:143-148 | passes exactly when the action ids are pairwise distinct, otherwise fails with DuplicateActionIds |
| Validation.CheckActionReferences | Services/WorkflowServices.cs:157-164 | passes exactly when the target and every source are state ids; a bad target is reported before any source, and otherwise the first bad source is reported |
| Validation.CheckActionsReferenceStates | Services/WorkflowServices.cs:151-166 | passes exactly when every action passes; otherwise reports the failure of the first action that fails |
| Validation.ValidateDefinition | Services/WorkflowServices.cs:96-104 | passes exactly when the definition is well formed: id not blank, states present, one initial state, distinct state ids, distinct action ids, all references to states |
| Validation.ReferenceChecksMeanValidReferences | Services/WorkflowServices.cs:151-166 | the reference walk passes exactly when every action's target and sources name states |
| Validation.ValidationReportsFirstViolatedRule | Services/WorkflowServices.cs:96-104 | each error is reported exactly when every earlier rule holds and its own rule is broken, in the order id, states, initial count, state ids, action ids, references; once the first five rules hold, the error is the reference walk's (the first failing action, its target checked before its sources) |
| Validation.EmptyIdWinsOverNoStates | Services/WorkflowServices.cs:98-99 | a definition with an empty id and no states is rejected for its id |
| Validation.DefaultDefinitionIsRejected | Models/WorkflowDefinition.cs:5-7 | a default-constructed definition is rejected with EmptyId |
| Validation.ValidatedInitialStateIsUnique | Models/WorkflowDefinition.cs:9-12 | on a validated definition GetInitialState succeeds and returns a member of States that is the only initial state |
| Validation.ValidatedActionLookupIsUnique | Models/WorkflowDefinition.cs:14-17 | on a validated definition the action GetAction returns is the only one with that id |
| Validation.ValidatedActionReferencesStates | Services/WorkflowServices.cs:151-166 | every action of a validated definition has a target and sources that are state ids |
| Execution.FindState | Services/WorkflowServices.cs:182 | succeeds exactly when some state has the id, and then returns the first such state; otherwise fails with StateNotFound |
| Execution.ValidateActionExecution | Services/WorkflowServices.cs:107-112 | fails ActionDisabled exactly when the action is disabled; else ActionNotAllowedFromState exactly when the current state is not a source; else StateNotFound or InstanceInFinalState by the state lookup; passes exactly when all three guards hold |
| Execution.MoveInstanceToNewState | Services/WorkflowServices.cs:82-93 | the instance's state becomes the action's target and exactly one entry (action, old state, target, time) is appended to its history |
| Execution.GuardsNeverMissTheCurrentState | Services/WorkflowServices.cs:180-185 | on a validated definition the guards never fail on the state lookup, because the current state is then one of the action's validated sources |
| Execution.PassingActionLandsOnState | Services/WorkflowServices.cs:107-112 | an action that passes the guards on a validated definition leads from a state of it to a state of it |
| Execution.DisabledActionFailsFromAnyState | Services/WorkflowServices.cs:168-172 | a disabled action fails as disabled whatever the current state, including one among its sources |
| Execution.FinalStateBlocksEveryAction | Services/WorkflowServices.cs:180-185 | from a final state no action passes; one that is enabled and lists the state fails with InstanceInFinalState |
| Services.CheckExecution | Services/WorkflowServices.cs:50-53 | the failures in order: missing definition, then missing action, then the first failing guard with that guard's own error (disabled, not from this state, final); on success the action is the first with the id (GetAction's result), belongs to the definition, is enabled and lists the current state |
| Services.CheckedExecutionStaysInDefinition | Services/WorkflowServices.cs:180-185 | with a validated definition the decision never fails on the state lookup, and an action it lets fire leads to a state of the definition |
| Services.WorkflowService.constructor | Services/WorkflowServices.cs:10-13 | the store is injected; an empty store satisfies both service invariants |
| Services.WorkflowService.CreateDefinition | Services/WorkflowServices.cs:15-20 | an invalid definition is reported with the validator's error and the store is unchanged; a valid one is stored under its id and returned unchanged; Valid() is preserved |
| Services.WorkflowService.GetDefinition | Services/WorkflowServices.cs:22-25 | the definition stored under the id, or absent exactly when none is |
| Services.WorkflowService.GetAllDefinitions | Services/WorkflowServices.cs:27-30 | every stored definition, each once, each the one stored under its id |
| Services.WorkflowService.StartInstance | Services/WorkflowServices.cs:32-45 | fails with DefinitionNotFound when the definition is absent, or InitialStateNotFound when it has no initial state, storing nothing; otherwise stores a new instance of the definition in its initial state with empty history; under Valid() only DefinitionNotFound can occur and both invariants are preserved |
| Services.WorkflowService.ResolveExecution | Services/WorkflowServices.cs:49-53 | the checks before any change, in order: missing instance, then the decision on its definition; under Valid() never StateNotFound or DefinitionNotFound, and the action to fire leads to a state of the definition |
| Services.WorkflowService.ExecuteAction | Services/WorkflowServices.cs:47-59 | on any failure the error is returned and no instance changes; on success the stored instance moves to the target with one history entry and no other instance changes; both invariants are preserved |
| Services.WorkflowService.GetInstance | Services/WorkflowServices.cs:61-64 | the instance stored under the id, or absent exactly when none is |
| Services.WorkflowService.GetDefinitionOrThrow | Services/WorkflowServices.cs:66-72 | the stored definition, or DefinitionNotFound exactly when the id is absent |
| Services.WorkflowService.GetInstanceOrThrow | Services/WorkflowServices.cs:74-80 | the stored instance, or InstanceNotFound exactly when the id is absent |
| Scenarios.CreateThenGet | Services/WorkflowServices.cs:15-25 | a valid definition is returned by creation and read back equal under its id |
| Scenarios.RejectedIsNotStored | Services/WorkflowServices.cs:15-20 | an invalid definition is reported with the validator's error and its id stays absent |
| Scenarios.TwoInitialStatesAreRefused | Services/WorkflowServices.cs:127-134 | two initial states are rejected as MultipleInitialStates |
| Scenarios.UnknownTargetIsRefused | Services/WorkflowServices.cs:151-158 | an action targeting an unknown state is rejected as InvalidToState with its id and target |
| Scenarios.ReviewIsValid | Models/WorkflowDefinition.cs:9-12 | the Draft/Done workflow passes validation and its initial state is Draft |
| Scenarios.SubmitFiresFromDraft | Services/WorkflowServices.cs:47-53 | submit passes every check from Draft |
| Scenarios.NothingFiresFromDone | Services/WorkflowServices.cs:107-112 | from Done, submit fails on its sources and archive on the final state |
| Scenarios.StartReview | Services/WorkflowServices.cs:32-45 | a new instance of the review workflow starts in Draft with empty history |
| Scenarios.SubmitReview | Services/WorkflowServices.cs:47-59 | submit moves the instance from Draft to Done and appends exactly the entry (submit, Draft, Done, time) |
| Scenarios.SubmitFinishedReview | Services/WorkflowServices.cs:174-178 | from Done, submit fails with ActionNotAllowedFromState and state and history stay the same |
| Scenarios.ArchiveFinishedReview | Services/WorkflowServices.cs:180-185 | from Done, an action listing Done fails with InstanceInFinalState and state and history stay the same |
| Scenarios.ReviewRun | Services/WorkflowServices.cs:32-59 | start, submit and two refused retries give Draft, Done, one history entry, and the two errors |
| Scenarios.ReopenedRefusesDraft | Services/WorkflowServices.cs:174-178 | the redefinition is valid, has no Draft state, and its action from Draft fails on its sources |
| Scenarios.RedefineUnderSameId | Storage/MemoryStorage.cs:10-13 | a valid definition under an id in use replaces the old one, leaving an instance in a state the stored definition lacks |
| Scenarios.CloseStrandedReview | Services/WorkflowServices.cs:47-53 | executing on the stranded instance fails on the action's sources and changes nothing |
| Scenarios.RedefinitionRun | Services/WorkflowServices.cs:15-20 | start, redefine under the same id, then execute: creation succeeds and execution fails with ActionNotAllowedFromState |

## Left out

- Null: the source's strings, lists and arguments may be null. The model's values are never null, so `string.IsNullOrWhiteSpace` is modelled for non-null strings only.
- Exception classes and message texts: each throw site is an `Error` constructor. The validator and guard errors carry the ids their messages name. `ActionNotFound` and `StateNotFound` carry the id that was looked up, although the message thrown by `First` names none. The texts and the field-name argument of `ThrowIfEmptyId` are not modelled.
- `Guid.NewGuid()` for instance ids is the parameter `freshId` of `StartInstance`. Freshness is not required: a colliding id overwrites, as `SaveInstance` would.
- `DateTime.Now` for history timestamps is the parameter `now` of `ExecuteAction`.
- Concurrency: concurrent `ExecuteAction` calls on the same instance and the check-then-act race are not modelled. Each operation runs alone.
- The HTTP controller and the application bootstrap are not part of this model.
- The interfaces `IStorage` and `IWorkflowService` have no behaviour. The service holds a `MemoryStorage` directly.
- Models.WorkflowInstance: `Id` and `DefinitionId` have public setters in the source. They are `const` here because the core never reassigns them after construction.
- Definitions are values here. In the source they are mutable objects, stored by reference, so a caller could change a stored definition after validation. That aliasing is not modelled.
- State's `Enabled` field is not modelled, because the core never reads it. Of the default property values, the core depends on three, and they are modelled: an empty `History` (the `WorkflowInstance` constructor), `Id = Guid.NewGuid()` (the `freshId` parameter) and `When = DateTime.Now` (the `now` parameter). So is the empty default definition (`DefaultDefinition`). Action's defaults (`Id = ""`, `Enabled = true`, empty `FromStates`, `ToState = ""`) are applied when a request is deserialized, outside the core; the model takes complete `Action` values. An action posted without `enabled` is therefore modelled as `Action(id, true, …)`, and one posted without `fromStates` as an action with an empty source list, which no guard lets fire.
- Storage.MemoryStorage.GetAllDefinitions: the order of `Values.ToList()` is not specified. The model picks any order.
- Services.WorkflowService.CreateDefinition: `InstancesInDefinedStates()` is promised only when the definition's id is new, because the code replaces a stored definition and can strand instances (`Scenarios.RedefinitionRun`).
