/** The in-memory store: two dictionaries keyed by id, one for definitions
    and one for instances. Instances are stored by reference, so an instance
    read from the store and then updated is updated in the store too. */
module Storage {
  import opened Failures
  import opened Models

  class MemoryStorage {
    var definitions: map<string, WorkflowDefinition>
    var instances: map<string, WorkflowInstance>

    /** Every entry sits under its own id: both dictionaries are only ever
        written by the Save methods, which key by the saved entity's id. */
    ghost predicate Valid()
      reads this
    {
      && (forall id :: id in definitions ==> definitions[id].id == id)
      && (forall id :: id in instances ==> instances[id].id == id)
    }

    constructor ()
      ensures Valid()
      ensures definitions == map[] && instances == map[]
    {
      definitions := map[];
      instances := map[];
    }

    /** Adds the definition under its id, replacing any earlier one there. */
    method SaveDefinition(definition: WorkflowDefinition)
      requires Valid()
      modifies this
      ensures Valid()
      ensures definitions == old(definitions)[definition.id := definition]
      ensures instances == old(instances)
    {
      definitions := definitions[definition.id := definition];
    }

    /** The definition stored under id, or absent (null). */
    method GetDefinition(id: string) returns (r: Option<WorkflowDefinition>)
      requires Valid()
      ensures r.Some? <==> id in definitions
      ensures r.Some? ==> r.value == definitions[id] && r.value.id == id
    {
      if id in definitions {
        r := Some(definitions[id]);
      } else {
        r := None;
      }
    }

    /** The stored definitions, one per id, in no particular order. */
    method GetAllDefinitions() returns (all: seq<WorkflowDefinition>)
      requires Valid()
      ensures |all| == |definitions|
      ensures forall i :: 0 <= i < |all| ==> all[i].id in definitions && definitions[all[i].id] == all[i]
      ensures forall i, j :: 0 <= i < j < |all| ==> all[i].id != all[j].id
      ensures forall id :: id in definitions ==> definitions[id] in all
    {
      all := [];
      var pending := definitions.Keys;
      while pending != {}
        invariant pending <= definitions.Keys
        invariant |all| + |pending| == |definitions|
        invariant forall i :: 0 <= i < |all| ==>
          all[i].id in definitions && all[i].id !in pending && definitions[all[i].id] == all[i]
        invariant forall i, j :: 0 <= i < j < |all| ==> all[i].id != all[j].id
        invariant forall id :: id in definitions && id !in pending ==> definitions[id] in all
        decreases |pending|
      {
        var id :| id in pending;
        all := all + [definitions[id]];
        pending := pending - {id};
      }
    }

    /** Adds the instance under its id, replacing any earlier one there. */
    method SaveInstance(instance: WorkflowInstance)
      requires Valid()
      modifies this
      ensures Valid()
      ensures instances == old(instances)[instance.id := instance]
      ensures definitions == old(definitions)
    {
      instances := instances[instance.id := instance];
    }

    /** The instance stored under id, or absent (null). */
    method GetInstance(id: string) returns (r: Option<WorkflowInstance>)
      requires Valid()
      ensures r.Some? <==> id in instances
      ensures r.Some? ==> r.value == instances[id] && r.value.id == id
    {
      if id in instances {
        r := Some(instances[id]);
      } else {
        r := None;
      }
    }
  }
}
