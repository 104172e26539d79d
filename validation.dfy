/** The definition validator: a fail-fast sequence of structural checks run
    before a definition is stored. The first rule that fails is reported. */
module Validation {
  import opened Failures
  import opened Enumerable
  import opened Models

  /** Char.IsWhiteSpace: the Unicode space, line and paragraph separators
      together with the control characters U+0009..U+000D and U+0085. */
  predicate IsWhiteSpace(c: char) {
    || '\U{0009}' <= c <= '\U{000D}'
    || c == ' ' || c == '\U{0085}' || c == '\U{00A0}' || c == '\U{1680}'
    || '\U{2000}' <= c <= '\U{200A}'
    || c == '\U{2028}' || c == '\U{2029}' || c == '\U{202F}' || c == '\U{205F}' || c == '\U{3000}'
  }

  /** string.IsNullOrWhiteSpace on a non-null string: walks the characters
      and stops at the first that is not white space. */
  function IsNullOrWhiteSpace(s: string): (blank: bool)
    ensures blank <==> forall i :: 0 <= i < |s| ==> IsWhiteSpace(s[i])
  {
    if s == [] then true
    else if !IsWhiteSpace(s[0]) then false
    else
      var rest := IsNullOrWhiteSpace(s[1..]);
      assert forall i :: 0 < i < |s| ==> s[i] == s[1..][i - 1];
      rest
  }

  /** An id of no-break spaces and tabs is blank; an id holding a zero-width
      space is not, since U+200B is not a .NET white-space character. */
  lemma BlankIdsFollowCharIsWhiteSpace()
    ensures IsNullOrWhiteSpace("\U{00A0}\t\U{3000}")
    ensures !IsNullOrWhiteSpace(" \U{200B}")
    ensures ValidateDefinition(WorkflowDefinition("\U{00A0}\t", [], [])) == Fail(EmptyId)
  {
    assert !IsWhiteSpace(" \U{200B}"[1]);
  }

  // ---- What a well-formed definition is, stated without the checks ----

  predicate ExactlyOneInitial(states: seq<State>) {
    exists i :: 0 <= i < |states| && states[i].isInitial &&
      forall j :: 0 <= j < |states| && states[j].isInitial ==> j == i
  }

  predicate NoInitial(states: seq<State>) {
    forall i :: 0 <= i < |states| ==> !states[i].isInitial
  }

  predicate SeveralInitial(states: seq<State>) {
    exists i, j :: 0 <= i < j < |states| && states[i].isInitial && states[j].isInitial
  }

  /** The action's target and every one of its sources name a state. */
  predicate ReferencesStates(a: Action, states: seq<State>) {
    && a.toState in StateIds(states)
    && forall k :: 0 <= k < |a.fromStates| ==> a.fromStates[k] in StateIds(states)
  }

  predicate AllReferencesValid(d: WorkflowDefinition) {
    forall i :: 0 <= i < |d.actions| ==> ReferencesStates(d.actions[i], d.states)
  }

  predicate WellFormed(d: WorkflowDefinition) {
    && !IsNullOrWhiteSpace(d.id)
    && |d.states| > 0
    && ExactlyOneInitial(d.states)
    && NoDuplicates(StateIds(d.states))
    && NoDuplicates(ActionIds(d.actions))
    && AllReferencesValid(d)
  }

  // ---- The checks, in the order ValidateDefinition runs them ----

  lemma ExactlyOneInitialCases(states: seq<State>)
    ensures ExactlyOneInitial(states) <==> !NoInitial(states) && !SeveralInitial(states)
  {
    if !NoInitial(states) && !SeveralInitial(states) {
      var i :| 0 <= i < |states| && states[i].isInitial;
      assert forall j :: 0 <= j < |states| && states[j].isInitial ==> j == i;
    }
  }

  predicate IsInitial(s: State) {
    s.isInitial
  }

  lemma InitialStatesCount(states: seq<State>)
    ensures |Where(states, IsInitial)| == 0 <==> NoInitial(states)
    ensures |Where(states, IsInitial)| > 1 <==> SeveralInitial(states)
  {
    WhereEmpty(states, IsInitial);
    WhereSeveral(states, IsInitial);
  }

  /** Where(s => s.IsInitial): a count of 0 and a count above 1 are both
      rejected, with different errors. */
  function CheckExactlyOneInitialState(states: seq<State>): (r: Outcome)
    ensures r == Pass <==> ExactlyOneInitial(states)
    ensures r == Fail(NoInitialState) <==> NoInitial(states)
    ensures r == Fail(MultipleInitialStates) <==> SeveralInitial(states)
  {
    var initialStates := Where(states, IsInitial);
    InitialStatesCount(states);
    ExactlyOneInitialCases(states);
    if |initialStates| == 0 then Fail(NoInitialState)
    else if |initialStates| > 1 then Fail(MultipleInitialStates)
    else Pass
  }

  /** Rejects when the id list is longer than its distinct count. */
  function CheckDuplicateStateIds(states: seq<State>): (r: Outcome)
    ensures r == Pass <==> NoDuplicates(StateIds(states))
    ensures r.Fail? ==> r.error == DuplicateStateIds
  {
    var stateIds := StateIds(states);
    DistinctCount(stateIds);
    if |stateIds| != |Elements(stateIds)| then Fail(DuplicateStateIds) else Pass
  }

  /** Rejects when the id list is longer than its distinct count. */
  function CheckDuplicateActionIds(actions: seq<Action>): (r: Outcome)
    ensures r == Pass <==> NoDuplicates(ActionIds(actions))
    ensures r.Fail? ==> r.error == DuplicateActionIds
  {
    var actionIds := ActionIds(actions);
    DistinctCount(actionIds);
    if |actionIds| != |Elements(actionIds)| then Fail(DuplicateActionIds) else Pass
  }

  /** One action: its ToState first, then its FromStates in order. */
  function CheckActionReferences(a: Action, stateIds: set<string>): (r: Outcome)
    ensures r == Pass <==> a.toState in stateIds && forall k :: 0 <= k < |a.fromStates| ==> a.fromStates[k] in stateIds
    ensures r.Fail? && a.toState !in stateIds ==> r.error == InvalidToState(a.id, a.toState)
    ensures r.Fail? && a.toState in stateIds ==>
      exists k :: 0 <= k < |a.fromStates| && a.fromStates[k] !in stateIds &&
        (forall m :: 0 <= m < k ==> a.fromStates[m] in stateIds) &&
        r.error == InvalidFromState(a.id, a.fromStates[k])
  {
    if a.toState !in stateIds then Fail(InvalidToState(a.id, a.toState))
    else
      var k := FirstIndex(a.fromStates, (s: string) => s !in stateIds);
      if k < |a.fromStates| then Fail(InvalidFromState(a.id, a.fromStates[k])) else Pass
  }

  /** The actions in order; the first action with a bad reference decides. */
  function CheckActionsReferenceStates(actions: seq<Action>, stateIds: set<string>): (r: Outcome)
    ensures r == Pass <==> forall i :: 0 <= i < |actions| ==> CheckActionReferences(actions[i], stateIds) == Pass
    ensures r.Fail? ==>
      exists i :: 0 <= i < |actions| && r == CheckActionReferences(actions[i], stateIds) &&
        forall j :: 0 <= j < i ==> CheckActionReferences(actions[j], stateIds) == Pass
  {
    if actions == [] then Pass
    else
      var first := CheckActionReferences(actions[0], stateIds);
      if first.Fail? then first
      else
        var rest := CheckActionsReferenceStates(actions[1..], stateIds);
        assert forall i :: 0 < i < |actions| ==> actions[i] == actions[1..][i - 1];
        rest
  }

  /** The whole validator: the first failing rule, or Pass. */
  function ValidateDefinition(d: WorkflowDefinition): (r: Outcome)
    ensures r == Pass <==> WellFormed(d)
  {
    ReferenceChecksMeanValidReferences(d);
    if IsNullOrWhiteSpace(d.id) then Fail(EmptyId)
    else if |d.states| == 0 then Fail(NoStates)
    else if CheckExactlyOneInitialState(d.states).Fail? then CheckExactlyOneInitialState(d.states)
    else if CheckDuplicateStateIds(d.states).Fail? then CheckDuplicateStateIds(d.states)
    else if CheckDuplicateActionIds(d.actions).Fail? then CheckDuplicateActionIds(d.actions)
    else CheckActionsReferenceStates(d.actions, Elements(StateIds(d.states)))
  }

  lemma ReferenceChecksMeanValidReferences(d: WorkflowDefinition)
    ensures CheckActionsReferenceStates(d.actions, Elements(StateIds(d.states))) == Pass <==> AllReferencesValid(d)
  {
  }

  // ---- Which error wins ----

  /** Each error is reported exactly when every earlier rule holds and its
      own rule is the one broken. */
  lemma ValidationReportsFirstViolatedRule(d: WorkflowDefinition)
    ensures ValidateDefinition(d) == Fail(EmptyId) <==> IsNullOrWhiteSpace(d.id)
    ensures ValidateDefinition(d) == Fail(NoStates) <==> !IsNullOrWhiteSpace(d.id) && d.states == []
    ensures ValidateDefinition(d) == Fail(NoInitialState) <==>
      !IsNullOrWhiteSpace(d.id) && d.states != [] && NoInitial(d.states)
    ensures ValidateDefinition(d) == Fail(MultipleInitialStates) <==>
      !IsNullOrWhiteSpace(d.id) && d.states != [] && SeveralInitial(d.states)
    ensures ValidateDefinition(d) == Fail(DuplicateStateIds) <==>
      !IsNullOrWhiteSpace(d.id) && ExactlyOneInitial(d.states) && !NoDuplicates(StateIds(d.states))
    ensures ValidateDefinition(d) == Fail(DuplicateActionIds) <==>
      !IsNullOrWhiteSpace(d.id) && ExactlyOneInitial(d.states) && NoDuplicates(StateIds(d.states)) &&
      !NoDuplicates(ActionIds(d.actions))
    ensures (ValidateDefinition(d).Fail? && (ValidateDefinition(d).error.InvalidToState? || ValidateDefinition(d).error.InvalidFromState?)) <==>
      !IsNullOrWhiteSpace(d.id) && ExactlyOneInitial(d.states) && NoDuplicates(StateIds(d.states)) &&
      NoDuplicates(ActionIds(d.actions)) && !AllReferencesValid(d)
    ensures !IsNullOrWhiteSpace(d.id) && ExactlyOneInitial(d.states) && NoDuplicates(StateIds(d.states)) &&
            NoDuplicates(ActionIds(d.actions)) ==>
      ValidateDefinition(d) == CheckActionsReferenceStates(d.actions, Elements(StateIds(d.states)))
  {
  }

  /** A definition with no id is rejected for its id even when it has no
      states either. */
  lemma EmptyIdWinsOverNoStates(actions: seq<Action>)
    ensures ValidateDefinition(WorkflowDefinition("", [], actions)) == Fail(EmptyId)
  {
  }

  /** A default-constructed definition is rejected on its id. */
  lemma DefaultDefinitionIsRejected()
    ensures ValidateDefinition(DefaultDefinition) == Fail(EmptyId)
  {
  }

  // ---- What a validated definition guarantees to the lookups ----

  /** GetInitialState succeeds on a validated definition and returns its one
      initial state. */
  lemma ValidatedInitialStateIsUnique(d: WorkflowDefinition)
    requires WellFormed(d)
    ensures d.GetInitialState().Ok?
    ensures d.GetInitialState().value in d.states
    ensures forall i :: 0 <= i < |d.states| && d.states[i].isInitial ==> d.states[i] == d.GetInitialState().value
  {
  }

  /** With distinct action ids, the action GetAction returns is the only
      one carrying that id. */
  lemma ValidatedActionLookupIsUnique(d: WorkflowDefinition, actionId: string)
    requires WellFormed(d)
    requires d.GetAction(actionId).Ok?
    ensures forall i :: 0 <= i < |d.actions| && d.actions[i].id == actionId ==> d.actions[i] == d.GetAction(actionId).value
  {
  }

  /** Every action of a validated definition names states of it. */
  lemma ValidatedActionReferencesStates(d: WorkflowDefinition, a: Action)
    requires WellFormed(d)
    requires a in d.actions
    ensures a.toState in StateIds(d.states)
    ensures forall s :: s in a.fromStates ==> s in StateIds(d.states)
  {
  }
}
