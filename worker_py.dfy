/** Model of worker.py: the Python twin of the Go worker.

    Three things set it apart. update_job_status reports success after the
    commit even when no row matched, and failure only on a database error.
    get_pending_job turns a database error into "no job". The generator may
    raise, and process_job then records the exception text. The generator
    itself is a large language model behind a library, so each call's result
    is a parameter of the model, as is every database error.
 */
module WorkerPy {
  import opened Models
  import opened Store
  import Worker

  /** The dictionary get_pending_job builds: id and topic. */
  datatype PendingJob = PendingJob(id: int, topic: string)

  /** What one call of generate_content did: return a text, or raise. */
  datatype Generated = Returned(text: string) | Raised(message: string)

  const ProcessingErrorPrefix: string := "Processing error: "

  /** The seconds run sleeps after finding no pending job. */
  const IdleSeconds: nat := 5

  /** job names a pending row and no pending row was created before it. */
  predicate IsOldestPending(rows: map<int, Job>, job: PendingJob) {
    && job.id in rows && rows[job.id].status == Pending && rows[job.id].topic == job.topic
    && forall id :: id in rows && rows[id].status == Pending ==> rows[job.id].createdAt <= rows[id].createdAt
  }

  /** The status and output of the write that ends process_job. */
  function FinalWrite(gen: Generated): (r: (Status, string))
    ensures r.0 == Completed || r.0 == Failed
    ensures r.1 != "" && ConsistentOutput(r.0, r.1)
    ensures r.0 == Completed <==> gen.Returned? && gen.text != ""
    ensures r.0 == Completed ==> r.1 == gen.text
    ensures gen == Returned("") ==> r.1 == Worker.FailureMessage
    ensures gen.Raised? ==> r.1 == ProcessingErrorPrefix + gen.message
  {
    match gen
    case Returned(text) => if text != "" then (Completed, text) else (Failed, Worker.FailureMessage)
    case Raised(message) => (Failed, ProcessingErrorPrefix + message)
  }

  /** update_job_status on a table: the UPDATE, or nothing on a database error. */
  function PyUpdate(db: Db, id: int, status: Status, output: string, fault: bool): (r: (Db, bool))
    ensures r.1 == !fault
    ensures fault ==> r.0 == db
    ensures !fault && id !in db.rows ==> r == (db, true)
    ensures !fault && id in db.rows ==>
      && r.0.rows.Keys == db.rows.Keys
      && SameIdentity(r.0.rows[id], db.rows[id])
      && r.0.rows[id].status == status && r.0.rows[id].output == output && r.0.rows[id].updatedAt == db.clock
      && (forall k :: k in db.rows && k != id ==> r.0.rows[k] == db.rows[k])
    ensures r.0.nextId == db.nextId && r.0.clock == db.clock
    ensures WellFormed(db) ==> WellFormed(r.0)
  {
    if fault then (db, false) else (Update(db, id, status, output).0, true)
  }

  /** The writes of process_job for one job id: claimFault and finishFault
      say whether the first and the second write hit a database error. */
  function PyProcessSteps(db: Db, id: int, gen: Generated, claimFault: bool, finishFault: bool): (r: Db)
    ensures claimFault || id !in db.rows ==> r == db
    ensures !claimFault && finishFault && id in db.rows ==>
      r == db.(rows := db.rows[id := db.rows[id].(status := Processing, output := "", updatedAt := db.clock)])
    ensures !claimFault && !finishFault && id in db.rows ==>
      r == db.(rows := db.rows[id := db.rows[id].(status := FinalWrite(gen).0, output := FinalWrite(gen).1, updatedAt := db.clock)])
    ensures WellFormed(db) ==> WellFormed(r)
    ensures OutputsConsistent(db.rows) ==> OutputsConsistent(r.rows)
  {
    var (claimed, ok) := PyUpdate(db, id, Processing, "", claimFault);
    if !ok then db
    else
      var (status, output) := FinalWrite(gen);
      PyUpdate(claimed, id, status, output, finishFault).0
  }

  /** With no database error and a generator that returns, process_job
      leaves the table exactly as processJob of the Go worker does. */
  lemma AgreesWithGoWorker(db: Db, id: int, text: string)
    ensures PyProcessSteps(db, id, Returned(text), false, false) == Worker.ProcessSteps(db, id, text)
  {
  }

  /** A finishing write that fails strands a claimed job: it stays processing
      and the pending queue has lost it all the same. */
  lemma StrandedWhenFinishFails(db: Db, id: int, gen: Generated)
    requires id in db.rows && db.rows[id].status == Pending
    ensures PyProcessSteps(db, id, gen, false, true).rows[id].status == Processing
    ensures Worker.PendingIds(PyProcessSteps(db, id, gen, false, true).rows) == Worker.PendingIds(db.rows) - {id}
  {
  }

  /** Without a database error on the claim, process_job takes a pending row
      off the pending queue, whatever the generator does. */
  lemma ProcessLeavesQueue(db: Db, id: int, gen: Generated, finishFault: bool)
    requires id in db.rows && db.rows[id].status == Pending
    ensures Worker.PendingIds(PyProcessSteps(db, id, gen, false, finishFault).rows) == Worker.PendingIds(db.rows) - {id}
    ensures |Worker.PendingIds(PyProcessSteps(db, id, gen, false, finishFault).rows)| == |Worker.PendingIds(db.rows)| - 1
  {
  }

  /** ContentWorker of worker.py, reading and writing the same table. */
  class ContentWorker {
    const store: JobStore
    var running: bool

    ghost predicate Valid()
      reads this, store
    {
      store.Valid()
    }

    constructor (store: JobStore)
      requires store.Valid()
      ensures Valid() && this.store == store && running
    {
      this.store := store;
      running := true;
    }

    /** get_pending_job: a pending job with the earliest created_at, or None
        when there is none or the query hits a database error. */
    method GetPendingJob(fault: bool) returns (job: Option<PendingJob>)
      requires Valid()
      ensures fault ==> job.None?
      ensures !fault ==> (job.None? <==> Worker.PendingIds(store.rows) == {})
      ensures job.Some? ==> IsOldestPending(store.rows, job.value)
    {
      if fault {
        return None;
      }
      var cursor := store.Select(true, false);
      if |cursor| == 0 {
        job := None;
        assert forall id :: id in Worker.PendingIds(store.rows) ==> store.rows[id] in cursor;
      } else {
        job := Some(PendingJob(cursor[0].id, cursor[0].topic));
        assert cursor[0].id in Worker.PendingIds(store.rows);
        forall id | id in store.rows && store.rows[id].status == Pending
          ensures cursor[0].createdAt <= store.rows[id].createdAt
        {
          assert store.rows[id] in cursor;
        }
      }
    }

    /** update_job_status: true after the commit, matched row or not; false
        on a database error, with the table unchanged. */
    method UpdateJobStatus(id: int, status: Status, output: string, fault: bool) returns (ok: bool)
      requires Valid()
      modifies store
      ensures Valid()
      ensures (store.State(), ok) == PyUpdate(old(store.State()), id, status, output, fault)
    {
      if fault {
        return false;
      }
      var _ := store.UpdateJobStatus(id, status, output);
      ok := true;
    }

    /** process_job, with gen the result of the generator call. */
    method ProcessJob(job: PendingJob, claimFault: bool, gen: Generated, finishFault: bool)
      requires Valid()
      modifies store
      ensures Valid()
      ensures store.State() == PyProcessSteps(old(store.State()), job.id, gen, claimFault, finishFault)
    {
      var claimed := UpdateJobStatus(job.id, Processing, "", claimFault);
      if !claimed {
        return;
      }
      match gen {
        case Returned(content) =>
          if content != "" {
            var _ := UpdateJobStatus(job.id, Completed, content, finishFault);
          } else {
            var _ := UpdateJobStatus(job.id, Failed, Worker.FailureMessage, finishFault);
          }
        case Raised(message) =>
          var _ := UpdateJobStatus(job.id, Failed, ProcessingErrorPrefix + message, finishFault);
      }
    }

    /** One iteration of run: nothing once running is false; otherwise the
        oldest pending job is processed, or the worker sleeps IdleSeconds. */
    method RunStep(queryFault: bool, claimFault: bool, gen: Generated, finishFault: bool)
      returns (iterated: bool, ghost picked: Option<PendingJob>)
      requires Valid()
      modifies store
      ensures Valid()
      ensures iterated == running
      ensures !iterated ==> picked == None && store.State() == old(store.State())
      ensures iterated && picked.None? ==>
        (queryFault || Worker.PendingIds(old(store.rows)) == {}) && store.State() == Advance(old(store.State()), IdleSeconds)
      ensures picked.Some? ==>
        && iterated && !queryFault
        && IsOldestPending(old(store.rows), picked.value)
        && store.State() == PyProcessSteps(old(store.State()), picked.value.id, gen, claimFault, finishFault)
      ensures store.rows.Keys == old(store.rows).Keys
      ensures iterated && !queryFault && !claimFault && Worker.PendingIds(old(store.rows)) != {} ==>
        |Worker.PendingIds(store.rows)| == |Worker.PendingIds(old(store.rows))| - 1
    {
      picked := None;
      iterated := running;
      if !running {
        return;
      }
      var job := GetPendingJob(queryFault);
      if job.Some? {
        picked := job;
        if !claimFault {
          ProcessLeavesQueue(store.State(), job.value.id, gen, finishFault);
        }
        ProcessJob(job.value, claimFault, gen, finishFault);
      } else {
        store.Tick(IdleSeconds);
      }
    }
  }
}
