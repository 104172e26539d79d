/** The service façade: the use cases a client calls, each a sequence of
    store lookups, validation and saves. It owns every store access; the
    validator and the engine never see the store. */
module Services {
  import opened Failures
  import opened Models
  import opened Storage
  import opened Validation
  import opened Execution

  /** What ExecuteAction decides before it changes anything: the definition
      named by the instance, then the action in it, then the guards. The
      result is the action to fire, or the first failure. */
  function CheckExecution(definitions: map<string, WorkflowDefinition>, definitionId: string,
                          currentState: string, actionId: string): (r: Result<Action>)
    ensures r == Err(DefinitionNotFound(definitionId)) <==> definitionId !in definitions
    ensures definitionId in definitions ==>
      (r == Err(ActionNotFound(actionId)) <==> actionId !in ActionIds(definitions[definitionId].actions))
    ensures r.Ok? <==>
      definitionId in definitions && actionId in ActionIds(definitions[definitionId].actions) &&
      ValidateActionExecution(currentState, definitions[definitionId].GetAction(actionId).value, definitions[definitionId]) == Pass
    ensures r.Ok? ==> r.value.id == actionId && r.value in definitions[definitionId].actions
    ensures r.Ok? ==> r.value == definitions[definitionId].GetAction(actionId).value
    ensures r.Ok? ==> r.value.enabled && currentState in r.value.fromStates
    ensures definitionId in definitions && actionId in ActionIds(definitions[definitionId].actions) &&
            ValidateActionExecution(currentState, definitions[definitionId].GetAction(actionId).value, definitions[definitionId]).Fail? ==>
      r == Err(ValidateActionExecution(currentState, definitions[definitionId].GetAction(actionId).value, definitions[definitionId]).error)
  {
    if definitionId !in definitions then Err(DefinitionNotFound(definitionId))
    else
      var definition := definitions[definitionId];
      match definition.GetAction(actionId)
      case Err(e) => Err(e)
      case Ok(action) =>
        match ValidateActionExecution(currentState, action, definition)
        case Fail(e) => Err(e)
        case Pass => Ok(action)
  }

  /** With only validated definitions stored, the decision never fails on
      the state lookup of the final-state guard, and an action it lets fire
      leads to a state of the definition. */
  lemma CheckedExecutionStaysInDefinition(definitions: map<string, WorkflowDefinition>, definitionId: string,
                                          currentState: string, actionId: string)
    requires definitionId in definitions && WellFormed(definitions[definitionId])
    ensures CheckExecution(definitions, definitionId, currentState, actionId) != Err(StateNotFound(currentState))
    ensures CheckExecution(definitions, definitionId, currentState, actionId).Ok? ==>
      CheckExecution(definitions, definitionId, currentState, actionId).value.toState in StateIds(definitions[definitionId].states)
  {
  }

  ghost predicate AllWellFormed(definitions: map<string, WorkflowDefinition>) {
    forall id :: id in definitions ==> WellFormed(definitions[id])
  }

  /** The definition id of an instance never changes, so this reads no heap. */
  ghost predicate AllDefinitionsStored(instances: map<string, WorkflowInstance>, definitions: map<string, WorkflowDefinition>) {
    forall id :: id in instances ==> instances[id].definitionId in definitions
  }

  class WorkflowService {
    const storage: MemoryStorage

    /** The store invariant the façade keeps: every stored definition passed
        validation and every stored instance names a stored definition. */
    ghost predicate Valid()
      reads storage
    {
      && storage.Valid()
      && AllWellFormed(storage.definitions)
      && AllDefinitionsStored(storage.instances, storage.definitions)
    }

    /** Every stored instance sits in a state of the definition it names. */
    ghost predicate InstancesInDefinedStates()
      reads storage, storage.instances.Values
    {
      forall id :: id in storage.instances && storage.instances[id].definitionId in storage.definitions ==>
        storage.instances[id].currentState in StateIds(storage.definitions[storage.instances[id].definitionId].states)
    }

    /** The store is injected; an empty store satisfies both invariants. */
    constructor (storage: MemoryStorage)
      requires storage.Valid()
      ensures this.storage == storage
      ensures storage.definitions == map[] && storage.instances == map[] ==> Valid() && InstancesInDefinedStates()
    {
      this.storage := storage;
    }

    /** Validates, then stores; an invalid definition never reaches the store. */
    method CreateDefinition(definition: WorkflowDefinition) returns (r: Result<WorkflowDefinition>)
      requires storage.Valid()
      modifies storage
      ensures storage.Valid()
      ensures storage.instances == old(storage.instances)
      ensures ValidateDefinition(definition).Fail? ==>
        r == Err(ValidateDefinition(definition).error) && storage.definitions == old(storage.definitions)
      ensures ValidateDefinition(definition) == Pass ==>
        r == Ok(definition) && storage.definitions == old(storage.definitions)[definition.id := definition]
      ensures old(Valid()) ==> Valid()
      ensures old(Valid() && InstancesInDefinedStates()) && definition.id !in old(storage.definitions) ==>
        InstancesInDefinedStates()
    {
      var validation := ValidateDefinition(definition);
      if validation.Fail? {
        return Err(validation.error);
      }
      storage.SaveDefinition(definition);
      r := Ok(definition);
    }

    /** A read that reports absence as None. */
    method GetDefinition(id: string) returns (r: Option<WorkflowDefinition>)
      requires storage.Valid()
      ensures r.Some? <==> id in storage.definitions
      ensures r.Some? ==> r.value == storage.definitions[id] && r.value.id == id
    {
      r := storage.GetDefinition(id);
    }

    method GetAllDefinitions() returns (all: seq<WorkflowDefinition>)
      requires storage.Valid()
      ensures |all| == |storage.definitions|
      ensures forall i :: 0 <= i < |all| ==> all[i].id in storage.definitions && storage.definitions[all[i].id] == all[i]
      ensures forall id :: id in storage.definitions ==> storage.definitions[id] in all
    {
      all := storage.GetAllDefinitions();
    }

    /** Builds an instance of the definition in its initial state, with an
        empty history, under the fresh id, and stores it. */
    method StartInstance(definitionId: string, freshId: string) returns (r: Result<WorkflowInstance>)
      requires storage.Valid()
      modifies storage
      ensures storage.Valid()
      ensures storage.definitions == old(storage.definitions)
      ensures definitionId !in storage.definitions ==>
        r == Err(DefinitionNotFound(definitionId)) && storage.instances == old(storage.instances)
      ensures definitionId in storage.definitions && storage.definitions[definitionId].GetInitialState().Err? ==>
        r == Err(InitialStateNotFound) && storage.instances == old(storage.instances)
      ensures definitionId in storage.definitions && storage.definitions[definitionId].GetInitialState().Ok? ==>
        && r.Ok? && fresh(r.value)
        && r.value.id == freshId && r.value.definitionId == definitionId
        && r.value.currentState == storage.definitions[definitionId].GetInitialState().value.id
        && r.value.history == []
        && storage.instances == old(storage.instances)[freshId := r.value]
      ensures old(Valid()) ==> Valid() && (r.Err? ==> r.error == DefinitionNotFound(definitionId))
      ensures old(Valid() && InstancesInDefinedStates()) ==> InstancesInDefinedStates()
    {
      var found := GetDefinitionOrThrow(definitionId);
      if found.Err? {
        return Err(found.error);
      }
      var definition := found.value;
      var initialState := definition.GetInitialState();
      if initialState.Err? {
        return Err(initialState.error);
      }
      ghost var before := storage.instances;
      var instance := new WorkflowInstance(freshId, definitionId, initialState.value.id);
      storage.SaveInstance(instance);
      if old(Valid()) {
        ValidatedInitialStateIsUnique(definition);
      }
      r := Ok(instance);
    }

    /** What ExecuteAction will do, read from the current store: the action
        to fire, or the first failure. */
    ghost function Decision(instanceId: string, actionId: string): Result<Action>
      reads storage, storage.instances.Values
    {
      if instanceId !in storage.instances then Err(InstanceNotFound(instanceId))
      else
        var instance := storage.instances[instanceId];
        CheckExecution(storage.definitions, instance.definitionId, instance.currentState, actionId)
    }

    /** Everything ExecuteAction reads and checks before it changes
        anything: the instance, its definition, the action, the guards.
        This is the executable form of Decision, and its contract proves the
        two agree: same failure, or the stored instance and the action. */
    method ResolveExecution(instanceId: string, actionId: string) returns (r: Result<(WorkflowInstance, Action)>)
      requires storage.Valid()
      ensures r.Err? <==> Decision(instanceId, actionId).Err?
      ensures r.Err? ==> r.error == Decision(instanceId, actionId).error
      ensures r.Ok? ==>
        && instanceId in storage.instances
        && r.value.0 == storage.instances[instanceId]
        && r.value.1 == Decision(instanceId, actionId).value
      ensures Valid() && r.Err? ==> !r.error.StateNotFound? && !r.error.DefinitionNotFound?
      ensures Valid() && r.Ok? ==> r.value.1.toState in StateIds(storage.definitions[r.value.0.definitionId].states)
    {
      var instance :- GetInstanceOrThrow(instanceId);
      var definition :- GetDefinitionOrThrow(instance.definitionId);
      if Valid() {
        CheckedExecutionStaysInDefinition(storage.definitions, instance.definitionId, instance.currentState, actionId);
      }
      var action :- definition.GetAction(actionId);
      :- ValidateActionExecution(instance.currentState, action, definition);
      r := Ok((instance, action));
    }

    /** Fires the action on the instance: resolves and checks everything
        first, then moves the instance and stores it. On any failure
        nothing changes. */
    method ExecuteAction(instanceId: string, actionId: string, now: Timestamp) returns (r: Result<WorkflowInstance>)
      requires storage.Valid()
      modifies storage, storage.instances.Values
      ensures storage.Valid()
      ensures storage.definitions == old(storage.definitions)
      ensures storage.instances == old(storage.instances)
      ensures old(Decision(instanceId, actionId)).Err? ==>
        r == Err(old(Decision(instanceId, actionId)).error) && unchanged(storage.instances.Values)
      ensures old(Decision(instanceId, actionId)).Ok? ==>
        var action := old(Decision(instanceId, actionId)).value;
        var instance := storage.instances[instanceId];
        && r == Ok(instance)
        && instance.currentState == action.toState
        && instance.history == old(instance.history) + [HistoryEntry(action.id, old(instance.currentState), action.toState, now)]
        && unchanged(storage.instances.Values - {instance})
      ensures old(Valid()) ==> Valid() && (r.Err? ==> !r.error.StateNotFound? && !r.error.DefinitionNotFound?)
      ensures old(Valid() && InstancesInDefinedStates()) ==> InstancesInDefinedStates()
    {
      var resolved :- ResolveExecution(instanceId, actionId);
      var (instance, action) := resolved;
      MoveInstanceToNewState(instance, action, now);
      storage.SaveInstance(instance);
      r := Ok(instance);
    }

    method GetInstance(id: string) returns (r: Option<WorkflowInstance>)
      requires storage.Valid()
      ensures r.Some? <==> id in storage.instances
      ensures r.Some? ==> r.value == storage.instances[id] && r.value.id == id
    {
      r := storage.GetInstance(id);
    }

    /** The stored definition, or DefinitionNotFound. */
    method GetDefinitionOrThrow(id: string) returns (r: Result<WorkflowDefinition>)
      requires storage.Valid()
      ensures r.Ok? <==> id in storage.definitions
      ensures r.Ok? ==> r.value == storage.definitions[id]
      ensures r.Err? ==> r.error == DefinitionNotFound(id)
    {
      var definition := storage.GetDefinition(id);
      if definition.None? {
        return Err(DefinitionNotFound(id));
      }
      r := Ok(definition.value);
    }

    /** The stored instance, or InstanceNotFound. */
    method GetInstanceOrThrow(id: string) returns (r: Result<WorkflowInstance>)
      requires storage.Valid()
      ensures r.Ok? <==> id in storage.instances
      ensures r.Ok? ==> r.value == storage.instances[id] && r.value.id == id
      ensures r.Err? ==> r.error == InstanceNotFound(id)
    {
      var instance := storage.GetInstance(id);
      if instance.None? {
        return Err(InstanceNotFound(id));
      }
      r := Ok(instance.value);
    }
  }
}
