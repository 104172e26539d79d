/** Worked runs of the validator and the façade on small workflows. */
module Scenarios {
  import opened Failures
  import opened Models
  import opened Storage
  import opened Enumerable
  import opened Validation
  import opened Execution
  import opened Services

  /** A definition that passes validation can be read back, equal in
      every field, under its id. */
  method CreateThenGet(service: WorkflowService, d: WorkflowDefinition) returns (created: Result<WorkflowDefinition>, got: Option<WorkflowDefinition>)
    requires service.storage.Valid()
    requires WellFormed(d)
    modifies service.storage
    ensures created == Ok(d)
    ensures got == Some(d)
  {
    created := service.CreateDefinition(d);
    got := service.GetDefinition(d.id);
  }

  /** A definition that fails validation is reported and, when its id was
      free, reading that id afterwards finds nothing. */
  method RejectedIsNotStored(service: WorkflowService, d: WorkflowDefinition) returns (created: Result<WorkflowDefinition>, got: Option<WorkflowDefinition>)
    requires service.storage.Valid()
    requires !WellFormed(d)
    requires d.id !in service.storage.definitions
    modifies service.storage
    ensures created.Err? && created.error == ValidateDefinition(d).error
    ensures got == None
  {
    created := service.CreateDefinition(d);
    got := service.GetDefinition(d.id);
  }

  /** Draft --submit--> Done, and archive, which lists the final state Done
      among its sources. */
  const Review := WorkflowDefinition(
    "review",
    [State("Draft", true, false), State("Done", false, true)],
    [Action("submit", true, ["Draft"], "Done"), Action("archive", true, ["Done"], "Draft")])

  const Reviews := map["review" := Review]

  /** The review workflow passes validation and starts in Draft. */
  lemma ReviewIsValid()
    ensures WellFormed(Review)
    ensures Review.GetInitialState() == Ok(Review.states[0])
  {
    assert !IsWhiteSpace(Review.id[0]);
    assert ExactlyOneInitial(Review.states) by {
      assert Review.states[0].isInitial;
      assert forall j :: 0 <= j < |Review.states| && Review.states[j].isInitial ==> j == 0;
    }
    assert StateIds(Review.states) == ["Draft", "Done"];
    assert ActionIds(Review.actions) == ["submit", "archive"];
  }

  /** Submit fires from Draft. */
  lemma SubmitFiresFromDraft()
    ensures CheckExecution(Reviews, "review", "Draft", "submit") == Ok(Review.actions[0])
  {
  }

  /** From Done, submit is refused by the source check and archive, which
      does list Done, by the final-state check. */
  lemma NothingFiresFromDone()
    ensures CheckExecution(Reviews, "review", "Done", "submit") == Err(ActionNotAllowedFromState("submit", "Done"))
    ensures CheckExecution(Reviews, "review", "Done", "archive") == Err(InstanceInFinalState)
  {
  }

  /** Two initial states are refused as several, not as none. */
  lemma TwoInitialStatesAreRefused()
    ensures ValidateDefinition(WorkflowDefinition("w", [State("A", true, false), State("B", true, false)], []))
         == Fail(MultipleInitialStates)
  {
    var d := WorkflowDefinition("w", [State("A", true, false), State("B", true, false)], []);
    assert !IsWhiteSpace(d.id[0]);
    assert SeveralInitial(d.states) by {
      assert d.states[0].isInitial && d.states[1].isInitial;
    }
  }

  /** An action whose target is not a state is refused on its target. */
  lemma UnknownTargetIsRefused()
    ensures ValidateDefinition(WorkflowDefinition("w", [State("A", true, false)], [Action("go", true, ["A"], "Z")]))
         == Fail(InvalidToState("go", "Z"))
  {
    var d := WorkflowDefinition("w", [State("A", true, false)], [Action("go", true, ["A"], "Z")]);
    assert !IsWhiteSpace(d.id[0]);
    assert ExactlyOneInitial(d.states) by {
      assert d.states[0].isInitial;
    }
    assert StateIds(d.states) == ["A"];
    assert ActionIds(d.actions) == ["go"];
    assert Elements(StateIds(d.states)) == {"A"};
  }

  /** A fresh store accepts the review workflow, and an instance of it
      starts in Draft with no history. */
  method StartReview() returns (service: WorkflowService, instance: WorkflowInstance)
    ensures service.storage.Valid()
    ensures service.storage.definitions == Reviews
    ensures service.storage.instances == map["i1" := instance]
    ensures fresh(service.storage) && fresh(instance)
    ensures instance.id == "i1" && instance.definitionId == "review"
    ensures instance.currentState == "Draft" && instance.history == []
  {
    var store := new MemoryStorage();
    service := new WorkflowService(store);
    ReviewIsValid();
    var created := service.CreateDefinition(Review);
    var started := service.StartInstance("review", "i1");
    instance := started.value;
  }

  /** Submit from Draft lands on Done and records exactly one entry. */
  method SubmitReview(service: WorkflowService, instance: WorkflowInstance, now: Timestamp)
    returns (r: Result<WorkflowInstance>)
    requires service.storage.Valid()
    requires service.storage.definitions == Reviews
    requires service.storage.instances == map["i1" := instance]
    requires instance.definitionId == "review" && instance.currentState == "Draft"
    modifies service.storage, instance
    ensures service.storage.Valid()
    ensures service.storage.definitions == Reviews
    ensures service.storage.instances == map["i1" := instance]
    ensures r == Ok(instance)
    ensures instance.currentState == "Done"
    ensures instance.history == old(instance.history) + [HistoryEntry("submit", "Draft", "Done", now)]
  {
    SubmitFiresFromDraft();
    assert service.Decision("i1", "submit") == Ok(Review.actions[0]);
    r := service.ExecuteAction("i1", "submit", now);
  }

  /** From Done, submit is refused on its sources and nothing changes. */
  method SubmitFinishedReview(service: WorkflowService, instance: WorkflowInstance, now: Timestamp)
    returns (r: Result<WorkflowInstance>)
    requires service.storage.Valid()
    requires service.storage.definitions == Reviews
    requires service.storage.instances == map["i1" := instance]
    requires instance.definitionId == "review" && instance.currentState == "Done"
    modifies service.storage, instance
    ensures service.storage.Valid()
    ensures service.storage.definitions == Reviews
    ensures service.storage.instances == map["i1" := instance]
    ensures r == Err(ActionNotAllowedFromState("submit", "Done"))
    ensures instance.currentState == "Done" && instance.history == old(instance.history)
  {
    NothingFiresFromDone();
    assert service.Decision("i1", "submit") == Err(ActionNotAllowedFromState("submit", "Done"));
    r := service.ExecuteAction("i1", "submit", now);
  }

  /** From Done, archive lists Done among its sources and is refused as
      final; nothing changes. */
  method ArchiveFinishedReview(service: WorkflowService, instance: WorkflowInstance, now: Timestamp)
    returns (r: Result<WorkflowInstance>)
    requires service.storage.Valid()
    requires service.storage.definitions == Reviews
    requires service.storage.instances == map["i1" := instance]
    requires instance.definitionId == "review" && instance.currentState == "Done"
    modifies service.storage, instance
    ensures r == Err(InstanceInFinalState)
    ensures instance.currentState == "Done" && instance.history == old(instance.history)
  {
    NothingFiresFromDone();
    assert service.Decision("i1", "archive") == Err(InstanceInFinalState);
    r := service.ExecuteAction("i1", "archive", now);
  }

  /** A second definition under the id "review", without Draft. */
  const Reopened := WorkflowDefinition(
    "review",
    [State("Open", true, false)],
    [Action("close", true, ["Open"], "Open")])

  /** Reopened passes validation; from Draft its one action is refused on
      its sources, before the state lookup of the final-state check. */
  lemma ReopenedRefusesDraft()
    ensures WellFormed(Reopened)
    ensures "Draft" !in StateIds(Reopened.states)
    ensures CheckExecution(map["review" := Reopened], "review", "Draft", "close")
         == Err(ActionNotAllowedFromState("close", "Draft"))
  {
    assert !IsWhiteSpace(Reopened.id[0]);
    assert Reopened.states[0].isInitial;
    assert StateIds(Reopened.states) == ["Open"];
    assert ActionIds(Reopened.actions) == ["close"];
    assert Reopened.GetAction("close") == Ok(Reopened.actions[0]);
  }

  /** Saving a definition under an id already in use replaces it: when
      the new definition lacks the state an instance of the old one sits in,
      that instance is left in a state its stored definition does not have. */
  method RedefineUnderSameId(service: WorkflowService, instance: WorkflowInstance, redefined: WorkflowDefinition)
    returns (created: Result<WorkflowDefinition>)
    requires service.storage.Valid()
    requires service.storage.instances == map[instance.id := instance]
    requires WellFormed(redefined)
    requires redefined.id == instance.definitionId
    requires instance.currentState !in StateIds(redefined.states)
    modifies service.storage
    ensures created == Ok(redefined)
    ensures service.storage.Valid()
    ensures service.storage.definitions == old(service.storage.definitions)[redefined.id := redefined]
    ensures service.storage.instances == old(service.storage.instances)
    ensures instance.currentState !in StateIds(service.storage.definitions[instance.definitionId].states)
  {
    created := service.CreateDefinition(redefined);
  }

  /** Executing on the stranded instance is refused on the action's
      sources, without ever looking its state up. */
  method CloseStrandedReview(service: WorkflowService, instance: WorkflowInstance, now: Timestamp)
    returns (closed: Result<WorkflowInstance>)
    requires service.storage.Valid()
    requires service.storage.definitions == map["review" := Reopened]
    requires service.storage.instances == map["i1" := instance]
    requires instance.definitionId == "review" && instance.currentState == "Draft"
    modifies service.storage, instance
    ensures closed == Err(ActionNotAllowedFromState("close", "Draft"))
    ensures instance.currentState == "Draft" && instance.history == old(instance.history)
  {
    ReopenedRefusesDraft();
    assert service.Decision("i1", "close") == Err(ActionNotAllowedFromState("close", "Draft"));
    closed := service.ExecuteAction("i1", "close", now);
  }

  /** The whole run: start, submit, then two refused retries. */
  method ReviewRun(now: Timestamp) returns (started: string, moved: string, history: seq<HistoryEntry>,
                                            submitted: Result<WorkflowInstance>, archived: Result<WorkflowInstance>)
    ensures started == "Draft" && moved == "Done"
    ensures history == [HistoryEntry("submit", "Draft", "Done", now)]
    ensures submitted == Err(ActionNotAllowedFromState("submit", "Done"))
    ensures archived == Err(InstanceInFinalState)
  {
    var service, instance := StartReview();
    started := instance.currentState;
    var fired := SubmitReview(service, instance, now);
    moved := instance.currentState;
    history := instance.history;
    submitted := SubmitFinishedReview(service, instance, now + 1);
    archived := ArchiveFinishedReview(service, instance, now + 2);
  }

  /** Start, redefine the workflow without Draft, then try to close: the
      instance is stranded in Draft and the action is refused. */
  method RedefinitionRun(now: Timestamp) returns (created: Result<WorkflowDefinition>, closed: Result<WorkflowInstance>)
    ensures created == Ok(Reopened)
    ensures closed == Err(ActionNotAllowedFromState("close", "Draft"))
  {
    var service, instance := StartReview();
    ReopenedRefusesDraft();
    created := RedefineUnderSameId(service, instance, Reopened);
    closed := CloseStrandedReview(service, instance, now);
  }
}
