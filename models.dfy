/** The entities of the workflow engine: states, actions, history entries,
    definitions (values) and instances (objects updated in place). */
module Models {
  import opened Failures
  import opened Enumerable

  /** The moment a transition happened; the engine reads it from the clock. */
  type Timestamp = int

  /** Only the fields the engine reads. */
  datatype State = State(id: string, isInitial: bool, isFinal: bool)

  /** A transition from any of fromStates to toState. */
  datatype Action = Action(id: string, enabled: bool, fromStates: seq<string>, toState: string)

  datatype HistoryEntry = HistoryEntry(actionId: string, fromState: string, toState: string, when: Timestamp)

  /** The ids of the states, in order (States.Select(s => s.Id)). */
  function StateIds(states: seq<State>): (ids: seq<string>)
    ensures |ids| == |states|
    ensures forall i :: 0 <= i < |states| ==> ids[i] == states[i].id
  {
    seq(|states|, i requires 0 <= i < |states| => states[i].id)
  }

  /** The ids of the actions, in order (Actions.Select(a => a.Id)). */
  function ActionIds(actions: seq<Action>): (ids: seq<string>)
    ensures |ids| == |actions|
    ensures forall i :: 0 <= i < |actions| ==> ids[i] == actions[i].id
  {
    seq(|actions|, i requires 0 <= i < |actions| => actions[i].id)
  }

  datatype WorkflowDefinition = WorkflowDefinition(id: string, states: seq<State>, actions: seq<Action>)
  {
    /** The first state marked initial; First throws when there is none. */
    function GetInitialState(): (r: Result<State>)
      ensures r.Ok? <==> exists i :: 0 <= i < |states| && states[i].isInitial
      ensures r.Err? ==> r.error == InitialStateNotFound
      ensures r.Ok? ==> r.value.isInitial
      ensures r.Ok? ==> exists i :: 0 <= i < |states| && states[i] == r.value &&
                         forall j :: 0 <= j < i ==> !states[j].isInitial
    {
      var i := FirstIndex(states, (s: State) => s.isInitial);
      if i < |states| then Ok(states[i]) else Err(InitialStateNotFound)
    }

    /** The first action with the given id; First throws when there is none. */
    function GetAction(actionId: string): (r: Result<Action>)
      ensures r.Ok? <==> actionId in ActionIds(actions)
      ensures r.Err? ==> r.error == ActionNotFound(actionId)
      ensures r.Ok? ==> r.value.id == actionId
      ensures r.Ok? ==> exists i :: 0 <= i < |actions| && actions[i] == r.value &&
                         forall j :: 0 <= j < i ==> actions[j].id != actionId
    {
      var i := FirstIndex(actions, (a: Action) => a.id == actionId);
      if i < |actions| then Ok(actions[i]) else Err(ActionNotFound(actionId))
    }
  }

  /** What `new WorkflowDefinition()` holds before any property is set. */
  const DefaultDefinition := WorkflowDefinition("", [], [])

  /** A running instance. The engine never reassigns its id or its
      definition id once the instance is built; the current state and the
      history change as actions fire. */
  class WorkflowInstance {
    const id: string
    const definitionId: string
    var currentState: string
    var history: seq<HistoryEntry>

    /** The instance StartInstance builds; id is the fresh Guid. */
    constructor (id: string, definitionId: string, currentState: string)
      ensures this.id == id && this.definitionId == definitionId
      ensures this.currentState == currentState && history == []
    {
      this.id := id;
      this.definitionId := definitionId;
      this.currentState := currentState;
      history := [];
    }
  }
}
