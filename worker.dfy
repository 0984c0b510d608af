/** Model of worker.go: the Go worker that drains the pending queue.

    processJob is a short state machine over the store: write processing with
    an empty output, generate, then write completed with the text, or failed
    with a fixed message when the text is empty. The claim is an unconditional
    UPDATE, as written, not a compare-and-set. The model is sequential: one
    caller, no goroutines.
 */
module Worker {
  import opened Models
  import opened Store
  import Llm

  /** The columns the two pending queries scan: id, topic and type. */
  datatype JobRef = JobRef(id: int, topic: string, jobType: string)

  function RefOf(job: Job): JobRef {
    JobRef(job.id, job.topic, job.jobType)
  }

  const FailureMessage: string := "Content generation failed"

  /** The seconds run sleeps after finding no pending job. */
  const IdleSeconds: nat := 2

  function PendingIds(rows: map<int, Job>): set<int> {
    set id | id in rows && rows[id].status == Pending
  }

  /** ref names a pending row and no pending row was created before it. */
  predicate IsOldestPending(rows: map<int, Job>, ref: JobRef) {
    && ref.id in rows && rows[ref.id].status == Pending && ref == RefOf(rows[ref.id])
    && forall id :: id in rows && rows[id].status == Pending ==> rows[ref.id].createdAt <= rows[id].createdAt
  }

  function RefIds(refs: seq<JobRef>): set<int> {
    set i | 0 <= i < |refs| :: refs[i].id
  }

  /** refs is the pending queue of the table: every pending row once, oldest first. */
  predicate PendingQueue(refs: seq<JobRef>, rows: map<int, Job>) {
    && (forall i :: 0 <= i < |refs| ==>
          refs[i].id in rows && rows[refs[i].id].status == Pending && refs[i] == RefOf(rows[refs[i].id]))
    && RefIds(refs) == PendingIds(rows)
    && (forall i, k :: 0 <= i < k < |refs| ==> refs[i].id != refs[k].id)
    && (forall i, k :: 0 <= i < k < |refs| ==> rows[refs[i].id].createdAt <= rows[refs[k].id].createdAt)
  }

  // ------------------------------------------------- processJob on a table

  /** The row processJob leaves behind once both of its writes succeed. */
  function Finished(job: Job, content: string, now: int): Job {
    job.(status := if content != "" then Completed else Failed,
         output := if content != "" then content else FailureMessage,
         updatedAt := now)
  }

  /** The writes of processJob for one job id, given the generated content. */
  function ProcessSteps(db: Db, id: int, content: string): (r: Db)
    ensures id !in db.rows ==> r == db
    ensures id in db.rows ==> r == db.(rows := db.rows[id := Finished(db.rows[id], content, db.clock)])
    ensures WellFormed(db) ==> WellFormed(r)
    ensures OutputsConsistent(db.rows) ==> OutputsConsistent(r.rows)
  {
    var (claimed, claim) := Update(db, id, Processing, "");
    if claim.Fail? then db
    else if content != "" then Update(claimed, id, Completed, content).0
    else Update(claimed, id, Failed, FailureMessage).0
  }

  /** Processing a pending row takes it off the pending queue and touches no other. */
  lemma ProcessLeavesQueue(db: Db, id: int, content: string)
    requires id in db.rows && db.rows[id].status == Pending
    ensures PendingIds(ProcessSteps(db, id, content).rows) == PendingIds(db.rows) - {id}
    ensures |PendingIds(ProcessSteps(db, id, content).rows)| == |PendingIds(db.rows)| - 1
  {
  }

  /** ProcessAllPending on a table: processJob on every ref, in order, with the
      content gen produces for its topic. */
  function ProcessEach(db: Db, refs: seq<JobRef>, gen: string -> string): Db
    decreases |refs|
  {
    if refs == [] then db
    else ProcessEach(ProcessSteps(db, refs[0].id, gen(refs[0].topic)), refs[1..], gen)
  }

  lemma {:induction false} ProcessEachSnoc(db: Db, refs: seq<JobRef>, ref: JobRef, gen: string -> string)
    ensures ProcessEach(db, refs + [ref], gen) == ProcessSteps(ProcessEach(db, refs, gen), ref.id, gen(ref.topic))
    decreases |refs|
  {
    if refs == [] {
      assert [ref][1..] == [];
    } else {
      assert (refs + [ref])[1..] == refs[1..] + [ref];
      ProcessEachSnoc(ProcessSteps(db, refs[0].id, gen(refs[0].topic)), refs[1..], ref, gen);
    }
  }

  lemma RefIdsCons(refs: seq<JobRef>)
    requires refs != []
    requires forall i, k :: 0 <= i < k < |refs| ==> refs[i].id != refs[k].id
    ensures RefIds(refs) == {refs[0].id} + RefIds(refs[1..])
    ensures refs[0].id !in RefIds(refs[1..])
  {
  }

  /** After a sweep over refs with distinct ids, each of their rows is finished
      with the content generated for its topic; no other row changes. */
  lemma {:induction false} ProcessEachEffect(db: Db, refs: seq<JobRef>, gen: string -> string)
    requires forall i, k :: 0 <= i < k < |refs| ==> refs[i].id != refs[k].id
    ensures ProcessEach(db, refs, gen).rows.Keys == db.rows.Keys
    ensures ProcessEach(db, refs, gen).nextId == db.nextId && ProcessEach(db, refs, gen).clock == db.clock
    ensures forall i :: 0 <= i < |refs| && refs[i].id in db.rows ==>
      ProcessEach(db, refs, gen).rows[refs[i].id] == Finished(db.rows[refs[i].id], gen(refs[i].topic), db.clock)
    ensures forall id :: id in db.rows && id !in RefIds(refs) ==> ProcessEach(db, refs, gen).rows[id] == db.rows[id]
    decreases |refs|
  {
    if refs != [] {
      var next := ProcessSteps(db, refs[0].id, gen(refs[0].topic));
      var rest := refs[1..];
      var r := ProcessEach(db, refs, gen);
      assert r == ProcessEach(next, rest, gen);
      ProcessEachEffect(next, rest, gen);
      RefIdsCons(refs);
      forall i | 0 <= i < |refs| && refs[i].id in db.rows
        ensures r.rows[refs[i].id] == Finished(db.rows[refs[i].id], gen(refs[i].topic), db.clock)
      {
        if i > 0 {
          assert rest[i - 1] == refs[i];
          assert refs[i].id in RefIds(rest);
        }
      }
    }
  }

  /** A sweep over the pending queue finishes every pending row with its
      generated content, leaves every other row as it was, and leaves no row
      pending. */
  lemma SweepFinishesQueue(db: Db, refs: seq<JobRef>, gen: string -> string)
    requires PendingQueue(refs, db.rows)
    ensures ProcessEach(db, refs, gen).rows.Keys == db.rows.Keys
    ensures forall id :: id in PendingIds(db.rows) ==>
      ProcessEach(db, refs, gen).rows[id] == Finished(db.rows[id], gen(db.rows[id].topic), db.clock)
    ensures forall id :: id in db.rows && id !in PendingIds(db.rows) ==> ProcessEach(db, refs, gen).rows[id] == db.rows[id]
    ensures PendingIds(ProcessEach(db, refs, gen).rows) == {}
    ensures PendingIds(db.rows) == {} ==> ProcessEach(db, refs, gen) == db
  {
    if refs != [] {
      assert refs[0].id in RefIds(refs);
    }
    ProcessEachEffect(db, refs, gen);
    var r := ProcessEach(db, refs, gen);
    forall id | id in PendingIds(db.rows)
      ensures r.rows[id] == Finished(db.rows[id], gen(db.rows[id].topic), db.clock)
    {
      var k :| 0 <= k < |refs| && refs[k].id == id;
    }
    forall id | id in r.rows ensures r.rows[id].status != Pending {
      if id in PendingIds(db.rows) {
        assert r.rows[id] == Finished(db.rows[id], gen(db.rows[id].topic), db.clock);
      }
    }
  }

  // -------------------------------------------------------------- the worker

  /** ContentWorker: the generator it was built with and the running flag. */
  class ContentWorker {
    const store: JobStore
    const generator: Llm.LLMGenerator
    /** The method value generator.GenerateContent. */
    const generate: string -> string
    var running: bool

    ghost predicate Valid()
      reads this, store
    {
      store.Valid() && forall topic :: generate(topic) != ""
    }

    /** NewContentWorker, with the model path findModel returned: its
        generator fills the templates as the program does. */
    constructor (store: JobStore, modelPath: string)
      requires store.Valid()
      ensures Valid()
      ensures this.store == store && generator == Llm.LLMGenerator(modelPath) && running
      ensures forall topic :: generate(topic) == Llm.GenerateContentAsWritten(generator, topic)
    {
      this.store := store;
      generator := Llm.LLMGenerator(modelPath);
      generate := topic => Llm.GenerateContentAsWritten(Llm.LLMGenerator(modelPath), topic);
      running := true;
    }

    /** A worker whose generator fills the templates with the intended
        operands. */
    constructor WithIntendedTemplates(store: JobStore, modelPath: string)
      requires store.Valid()
      ensures Valid()
      ensures this.store == store && generator == Llm.LLMGenerator(modelPath) && running
      ensures forall topic :: generate(topic) == Llm.GenerateContent(generator, topic)
    {
      this.store := store;
      generator := Llm.LLMGenerator(modelPath);
      generate := topic => Llm.GenerateContent(Llm.LLMGenerator(modelPath), topic);
      running := true;
    }

    method Stop()
      modifies this
      ensures !running
    {
      running := false;
    }

    /** getPendingJob: a pending job with the earliest created_at, if any. */
    method GetPendingJob() returns (job: Option<JobRef>)
      requires Valid()
      ensures job.None? <==> PendingIds(store.rows) == {}
      ensures job.Some? ==> IsOldestPending(store.rows, job.value)
    {
      var cursor := store.Select(true, false);
      if |cursor| == 0 {
        job := None;
        assert forall id :: id in PendingIds(store.rows) ==> store.rows[id] in cursor;
      } else {
        job := Some(RefOf(cursor[0]));
        assert cursor[0].id in PendingIds(store.rows);
        forall id | id in store.rows && store.rows[id].status == Pending
          ensures cursor[0].createdAt <= store.rows[id].createdAt
        {
          assert store.rows[id] in cursor;
        }
      }
    }

    /** getAllPendingJobs: the pending queue, oldest first. */
    method GetAllPendingJobs() returns (jobs: seq<JobRef>)
      requires Valid()
      ensures PendingQueue(jobs, store.rows)
    {
      var cursor := store.Select(true, false);
      jobs := [];
      var i := 0;
      while i < |cursor|
        invariant 0 <= i <= |cursor|
        invariant |jobs| == i && forall k :: 0 <= k < i ==> jobs[k] == RefOf(cursor[k])
      {
        jobs := jobs + [RefOf(cursor[i])];
        i := i + 1;
      }
      forall id | id in PendingIds(store.rows) ensures id in RefIds(jobs) {
        var k :| 0 <= k < |cursor| && cursor[k] == store.rows[id];
        assert jobs[k].id == id;
      }
    }

    /** processJob: claim the row, generate, record the outcome. */
    method ProcessJob(job: JobRef)
      requires Valid()
      modifies store
      ensures Valid()
      ensures store.State() == ProcessSteps(old(store.State()), job.id, generate(job.topic))
      ensures job.id in old(store.rows) ==>
        store.rows[job.id].status == Completed && store.rows[job.id].output == generate(job.topic)
    {
      var claim := store.UpdateJobStatus(job.id, Processing, "");
      if claim.Fail? {
        return;
      }
      var content := generate(job.topic);
      RecordOutcome(job.id, content);
    }

    /** The second write of processJob: completed with the content, or failed
        with FailureMessage when the content is empty. */
    method RecordOutcome(id: int, content: string)
      requires Valid()
      modifies store
      ensures Valid()
      ensures store.State() == Update(old(store.State()), id, if content != "" then Completed else Failed,
                                      if content != "" then content else FailureMessage).0
    {
      if content != "" {
        var _ := store.UpdateJobStatus(id, Completed, content);
      } else {
        var _ := store.UpdateJobStatus(id, Failed, FailureMessage);
      }
    }

    /** ProcessAllPending: a snapshot of the pending queue, processed in order. */
    method ProcessAllPending() returns (ghost snapshot: seq<JobRef>)
      requires Valid()
      modifies store
      ensures Valid()
      ensures PendingQueue(snapshot, old(store.rows))
      ensures store.State() == ProcessEach(old(store.State()), snapshot, generate)
      ensures PendingIds(store.rows) == {}
      ensures PendingIds(old(store.rows)) == {} ==> store.State() == old(store.State())
    {
      ghost var start := store.State();
      var jobs := GetAllPendingJobs();
      snapshot := jobs;
      ProcessInOrder(jobs);
      SweepFinishesQueue(start, jobs, generate);
    }

    /** The loop of ProcessAllPending: processJob on each job in turn. */
    method ProcessInOrder(jobs: seq<JobRef>)
      requires Valid()
      modifies store
      ensures Valid()
      ensures store.State() == ProcessEach(old(store.State()), jobs, generate)
    {
      ghost var start := store.State();
      var i := 0;
      while i < |jobs|
        invariant 0 <= i <= |jobs|
        invariant Valid()
        invariant store.State() == ProcessEach(start, jobs[..i], generate)
      {
        ProcessEachSnoc(start, jobs[..i], jobs[i], generate);
        assert jobs[..i + 1] == jobs[..i] + [jobs[i]];
        ProcessJob(jobs[i]);
        i := i + 1;
      }
      assert jobs[..i] == jobs;
    }

    /** One iteration of run: nothing once running is false; otherwise the
        oldest pending job is processed, or the worker sleeps IdleSeconds. */
    method RunStep() returns (iterated: bool, ghost picked: Option<JobRef>)
      requires Valid()
      modifies store
      ensures Valid()
      ensures iterated == running
      ensures !iterated ==> picked == None && store.State() == old(store.State())
      ensures iterated && picked.None? ==>
        PendingIds(old(store.rows)) == {} && store.State() == Advance(old(store.State()), IdleSeconds)
      ensures picked.Some? ==>
        && iterated
        && IsOldestPending(old(store.rows), picked.value)
        && store.State() == ProcessSteps(old(store.State()), picked.value.id, generate(picked.value.topic))
        && PendingIds(store.rows) == PendingIds(old(store.rows)) - {picked.value.id}
      ensures store.rows.Keys == old(store.rows).Keys
      ensures iterated && PendingIds(old(store.rows)) != {} ==>
        |PendingIds(store.rows)| == |PendingIds(old(store.rows))| - 1
    {
      picked := None;
      iterated := running;
      if !running {
        return;
      }
      var job := GetPendingJob();
      if job.Some? {
        picked := job;
        ProcessLeavesQueue(store.State(), job.value.id, generate(job.value.topic));
        ProcessJob(job.value);
      } else {
        store.Tick(IdleSeconds);
      }
    }

    /** run, for at most maxIterations iterations: it does nothing once running
        is false, and with no other writer it empties the pending queue within
        as many iterations as there were pending jobs. */
    method RunFor(maxIterations: nat) returns (iterations: nat)
      requires Valid()
      modifies store
      ensures Valid()
      ensures iterations == if running then maxIterations else 0
      ensures !running ==> store.State() == old(store.State())
      ensures store.rows.Keys == old(store.rows).Keys
      ensures running && |PendingIds(old(store.rows))| <= maxIterations ==> PendingIds(store.rows) == {}
    {
      iterations := 0;
      while running && iterations < maxIterations
        invariant Valid()
        invariant iterations <= maxIterations
        invariant !running ==> iterations == 0 && store.State() == old(store.State())
        invariant store.rows.Keys == old(store.rows).Keys
        invariant PendingIds(store.rows) == {} || |PendingIds(store.rows)| + iterations <= |PendingIds(old(store.rows))|
      {
        var iterated;
        ghost var picked;
        iterated, picked := RunStep();
        iterations := iterations + 1;
      }
    }
  }
}
