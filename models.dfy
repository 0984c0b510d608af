/** Model of models.go: the Job record shared by the store and the workers. */
module Models {

  /** The values the worker writes into the status column. */
  datatype Status = Pending | Processing | Completed | Failed

  /** One row of the jobs table. Timestamps are readings of an abstract clock. */
  datatype Job = Job(
    id: int,
    topic: string,
    jobType: string,
    status: Status,
    output: string,
    createdAt: int,
    updatedAt: int)

  datatype Option<T> = None | Some(value: T)

  /** The pairing of status and output the job lifecycle keeps: no output
      while a job waits or runs, some output once it has finished. */
  predicate ConsistentOutput(status: Status, output: string) {
    (status == Pending || status == Processing) <==> output == ""
  }

  predicate OutputsConsistent(rows: map<int, Job>) {
    forall id :: id in rows ==> ConsistentOutput(rows[id].status, rows[id].output)
  }
}
