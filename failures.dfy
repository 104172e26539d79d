/** Failure values of the workflow engine.
    The engine reports every failure by throwing: ArgumentException from the
    definition validator and the not-found lookups, InvalidOperationException
    from the execution guards and from Enumerable.First when nothing matches.
    Here each throw site is one constructor of Error, and operations return
    Option, Result or Outcome instead of throwing. */
module Failures {

  datatype Option<T> = None | Some(value: T)

  /** The result of an operation that either produces a value or throws.
      `:-` propagates the failure the way the exception propagates. */
  datatype Result<T> = Ok(value: T) | Err(error: Error) {
    predicate IsFailure() {
      Err?
    }

    function PropagateFailure<U>(): Result<U>
      requires Err?
    {
      Err(error)
    }

    function Extract(): T
      requires Ok?
    {
      value
    }
  }

  /** The result of a void check that either returns or throws. */
  datatype Outcome = Pass | Fail(error: Error) {
    predicate IsFailure() {
      Fail?
    }

    function PropagateFailure<U>(): Result<U>
      requires Fail?
    {
      Err(error)
    }
  }

  datatype Error =
      // ArgumentException thrown by the definition validator, in the order the checks run
    | EmptyId
    | NoStates
    | NoInitialState
    | MultipleInitialStates
    | DuplicateStateIds
    | DuplicateActionIds
    | InvalidToState(actionId: string, state: string)
    | InvalidFromState(actionId: string, state: string)
      // ArgumentException thrown by GetDefinitionOrThrow and GetInstanceOrThrow
    | DefinitionNotFound(id: string)
    | InstanceNotFound(id: string)
      // InvalidOperationException thrown by First when no element matches
    | InitialStateNotFound
    | ActionNotFound(id: string)
    | StateNotFound(id: string)
      // InvalidOperationException thrown by the execution guards
    | ActionDisabled(actionId: string)
    | ActionNotAllowedFromState(actionId: string, state: string)
    | InstanceInFinalState
}
