/** The execution engine: the three guards an action must pass on an
    instance, and the transition itself. The guards only read; the
    transition runs only after all of them passed. */
module Execution {
  import opened Failures
  import opened Enumerable
  import opened Models
  import opened Validation

  /** The first state with the given id (States.First(s => s.Id == id)). */
  function FindState(states: seq<State>, id: string): (r: Result<State>)
    ensures r.Ok? <==> id in StateIds(states)
    ensures r.Err? ==> r.error == StateNotFound(id)
    ensures r.Ok? ==> r.value.id == id
    ensures r.Ok? ==> exists i :: 0 <= i < |states| && states[i] == r.value &&
                       forall j :: 0 <= j < i ==> states[j].id != id
  {
    var i := FirstIndex(states, (s: State) => s.id == id);
    if i < |states| then Ok(states[i]) else Err(StateNotFound(id))
  }

  /** The guards, in order: the action is enabled, the current state is one
      of its sources, and the current state is not final. Only the current
      state of the instance is read. */
  function ValidateActionExecution(currentState: string, action: Action, definition: WorkflowDefinition): (r: Outcome)
    ensures r == Fail(ActionDisabled(action.id)) <==> !action.enabled
    ensures r == Fail(ActionNotAllowedFromState(action.id, currentState)) <==>
      action.enabled && currentState !in action.fromStates
    ensures r == Fail(StateNotFound(currentState)) <==>
      action.enabled && currentState in action.fromStates && currentState !in StateIds(definition.states)
    ensures r == Fail(InstanceInFinalState) <==>
      action.enabled && currentState in action.fromStates &&
      FindState(definition.states, currentState).Ok? && FindState(definition.states, currentState).value.isFinal
    ensures r == Pass <==>
      action.enabled && currentState in action.fromStates &&
      FindState(definition.states, currentState).Ok? && !FindState(definition.states, currentState).value.isFinal
  {
    if !action.enabled then Fail(ActionDisabled(action.id))
    else if currentState !in action.fromStates then Fail(ActionNotAllowedFromState(action.id, currentState))
    else
      match FindState(definition.states, currentState)
      case Err(e) => Fail(e)
      case Ok(state) => if state.isFinal then Fail(InstanceInFinalState) else Pass
  }

  /** The transition: records where the instance came from and moves it to
      the action's target. Nothing else about the instance changes. */
  method MoveInstanceToNewState(instance: WorkflowInstance, action: Action, now: Timestamp)
    modifies instance
    ensures instance.currentState == action.toState
    ensures instance.history == old(instance.history) + [HistoryEntry(action.id, old(instance.currentState), action.toState, now)]
  {
    var historyEntry := HistoryEntry(action.id, instance.currentState, action.toState, now);
    instance.currentState := action.toState;
    instance.history := instance.history + [historyEntry];
  }

  /** On a validated definition the state lookup of the final-state guard
      never fails: the current state is one of the action's sources, and
      validation made every source a state of the definition. */
  lemma GuardsNeverMissTheCurrentState(currentState: string, action: Action, definition: WorkflowDefinition)
    requires WellFormed(definition)
    requires action in definition.actions
    ensures ValidateActionExecution(currentState, action, definition) != Fail(StateNotFound(currentState))
  {
  }

  /** An action that passes the guards on a validated definition leads to a
      state of that definition. */
  lemma PassingActionLandsOnState(currentState: string, action: Action, definition: WorkflowDefinition)
    requires WellFormed(definition)
    requires action in definition.actions
    requires ValidateActionExecution(currentState, action, definition) == Pass
    ensures action.toState in StateIds(definition.states)
    ensures currentState in StateIds(definition.states)
  {
  }

  /** A disabled action is reported as disabled whatever the current state,
      even one listed among its sources. */
  lemma DisabledActionFailsFromAnyState(currentState: string, action: Action, definition: WorkflowDefinition)
    requires !action.enabled
    ensures ValidateActionExecution(currentState, action, definition) == Fail(ActionDisabled(action.id))
  {
  }

  /** An instance in a final state cannot move: every action that would
      otherwise be allowed is rejected as InstanceInFinalState. */
  lemma FinalStateBlocksEveryAction(currentState: string, action: Action, definition: WorkflowDefinition)
    requires FindState(definition.states, currentState).Ok? && FindState(definition.states, currentState).value.isFinal
    ensures ValidateActionExecution(currentState, action, definition) != Pass
    ensures action.enabled && currentState in action.fromStates ==>
      ValidateActionExecution(currentState, action, definition) == Fail(InstanceInFinalState)
  {
  }
}
