/** `trigger_workflow_async`: one message from the queue becomes a workflow run, a dead letter,
    or an error that leaves the message to be redelivered. */
module Trigger {
  import opened Wrappers
  import opened Tables
  import Fencing

  /** A message that fails validation is poison; of a valid one only its document matters here. */
  datatype Message = Poison | UploadMessage(document: string)

  function WorkflowId(document: string): string { "ingest-" + document }

  class WorkflowTrigger {
    var runs: map<RunId, Fencing.Run>
    var open: map<string, RunId>
    var deadLetters: nat

    constructor ()
      ensures runs == map[] && open == map[] && deadLetters == 0
    {
      runs, open, deadLetters := map[], map[], 0;
    }

    /** `run` and `at` are the id and the start time that Temporal would give the run;
        `reachable` says whether it can be talked to. A collision with an open run is an error
        unless the caller supersedes it. */
    method TriggerWorkflowAsync(message: Message, supersede: bool, reachable: bool, run: RunId, at: Time)
      returns (workflow: Result<string, string>)
      requires run !in runs
      modifies this
      ensures message.Poison? ==>
                workflow == Ok("") && deadLetters == old(deadLetters) + 1 && runs == old(runs) && open == old(open)
      ensures message.UploadMessage? ==> deadLetters == old(deadLetters)
      ensures message.UploadMessage? ==>
                (workflow.Ok? <==> reachable && (message.document !in old(open) || supersede))
      ensures message.UploadMessage? && workflow.Ok? ==> workflow.value == WorkflowId(message.document)
      ensures message.UploadMessage? && reachable ==>
                forall db: Database ::
                  Fencing.World(runs, open, db)
                  == Fencing.Next(Fencing.World(old(runs), old(open), db),
                      Fencing.Trigger(run, message.document, at, supersede))
      ensures message.UploadMessage? && workflow.Ok? ==>
                && runs == old(runs)[run := Fencing.Run(message.document, at)]
                && open == old(open)[message.document := run]
      ensures workflow.Err? ==> runs == old(runs) && open == old(open)
    {
      if message.Poison? {
        deadLetters := deadLetters + 1;
        return Ok("");
      }
      if !reachable {
        return Err("temporal unavailable");
      }
      if message.document in open && !supersede {
        return Err("workflow already started");
      }
      runs := runs[run := Fencing.Run(message.document, at)];
      open := open[message.document := run];
      return Ok(WorkflowId(message.document));
    }
  }

  /** Documents never share a workflow id, so one open run per id is one per document. */
  lemma WorkflowIdsAreDistinct(a: string, b: string)
    requires WorkflowId(a) == WorkflowId(b)
    ensures a == b
  {
    assert WorkflowId(a)[|"ingest-"|..] == a && WorkflowId(b)[|"ingest-"|..] == b;
  }
}
