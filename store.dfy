/** Model of db.go: the jobs table and the statements run against it.

    The SQLite table is a map from id to row, the AUTOINCREMENT counter and a
    clock. The clock stands for both time sources the code uses (Go's
    time.Now() when a job is created, SQL CURRENT_TIMESTAMP when it is updated);
    it only moves forward, through Advance. Each SQL statement is one atomic
    step, given first as a function on a table value (Create, Delete, Update)
    and then as a method of JobStore, the object that owns the table.
 */
module Store {
  import opened Models

  /** The one failure the model keeps: "job not found". */
  datatype Error = NotFound

  datatype Outcome = Done | Fail(error: Error)

  datatype Result<T> = Ok(value: T) | Err(error: Error)

  const DefaultType: string := "blog"

  /** The jobs table: its rows by id, the next AUTOINCREMENT id and the clock. */
  datatype Db = Db(rows: map<int, Job>, nextId: int, clock: int)

  /** Every row sits under its own id, below the counter, and was created no
      later than it was last updated, which is no later than now. */
  predicate WellFormed(db: Db) {
    1 <= db.nextId &&
    forall id :: id in db.rows ==>
      1 <= id < db.nextId && db.rows[id].id == id &&
      db.rows[id].createdAt <= db.rows[id].updatedAt <= db.clock
  }

  /** The columns no statement of the store ever rewrites. */
  predicate SameIdentity(a: Job, b: Job) {
    a.id == b.id && a.topic == b.topic && a.jobType == b.jobType && a.createdAt == b.createdAt
  }

  // ------------------------------------------------------------ statements

  /** createJob: INSERT one pending row with empty output under a fresh id. */
  function Create(db: Db, topic: string, jobType: string): (r: (Db, Job))
    ensures var (after, job) := r;
      && job.id == db.nextId
      && job.topic == topic
      && (jobType == "" ==> job.jobType == DefaultType)
      && (jobType != "" ==> job.jobType == jobType)
      && job.status == Pending && job.output == ""
      && job.createdAt == job.updatedAt == db.clock
      && after.rows == db.rows[job.id := job]
      && after.nextId == db.nextId + 1 && after.clock == db.clock
    ensures WellFormed(db) ==> WellFormed(r.0) && forall id :: id in db.rows ==> id < r.1.id
    ensures OutputsConsistent(db.rows) ==> OutputsConsistent(r.0.rows)
  {
    var job := Job(db.nextId, topic, if jobType == "" then DefaultType else jobType, Pending, "", db.clock, db.clock);
    (db.(rows := db.rows[job.id := job], nextId := db.nextId + 1), job)
  }

  /** deleteJob: DELETE the row with that id, whatever its status; no row
      affected is "job not found". */
  function Delete(db: Db, id: int): (r: (Db, Outcome))
    ensures r.1 == Done <==> id in db.rows
    ensures r.1.Fail? ==> r.1.error == NotFound && r.0 == db
    ensures r.0.rows.Keys == db.rows.Keys - {id}
    ensures forall k :: k in r.0.rows ==> r.0.rows[k] == db.rows[k]
    ensures r.0.nextId == db.nextId && r.0.clock == db.clock
    ensures WellFormed(db) ==> WellFormed(r.0)
    ensures OutputsConsistent(db.rows) ==> OutputsConsistent(r.0.rows)
  {
    if id in db.rows then (db.(rows := db.rows - {id}), Done)
    else (db, Fail(NotFound))
  }

  /** updateJobStatus: UPDATE status, output and updated_at of the row with
      that id; no row affected is "job not found". */
  function Update(db: Db, id: int, status: Status, output: string): (r: (Db, Outcome))
    ensures r.1 == Done <==> id in db.rows
    ensures r.1.Fail? ==> r.1.error == NotFound && r.0 == db
    ensures r.0.rows.Keys == db.rows.Keys
    ensures forall k :: k in db.rows && k != id ==> r.0.rows[k] == db.rows[k]
    ensures id in db.rows ==>
      && SameIdentity(r.0.rows[id], db.rows[id])
      && r.0.rows[id].status == status && r.0.rows[id].output == output
      && r.0.rows[id].updatedAt == db.clock
    ensures r.0.nextId == db.nextId && r.0.clock == db.clock
    ensures WellFormed(db) ==> WellFormed(r.0)
    ensures OutputsConsistent(db.rows) && ConsistentOutput(status, output) ==> OutputsConsistent(r.0.rows)
  {
    if id in db.rows then
      var row := db.rows[id].(status := status, output := output, updatedAt := db.clock);
      (db.(rows := db.rows[id := row]), Done)
    else (db, Fail(NotFound))
  }

  /** Time passes; no row changes. */
  function Advance(db: Db, d: nat): (r: Db)
    ensures r.rows == db.rows && r.nextId == db.nextId && r.clock >= db.clock
    ensures WellFormed(db) ==> WellFormed(r)
  {
    db.(clock := db.clock + d)
  }

  // --------------------------------------------------------------- histories

  /** One statement against the store, or the passing of time. */
  datatype Op =
    | CreateOp(topic: string, jobType: string)
    | UpdateOp(id: int, status: Status, output: string)
    | DeleteOp(id: int)
    | TickOp(d: nat)

  function Step(db: Db, op: Op): (r: Db)
    ensures WellFormed(db) ==> WellFormed(r)
    ensures r.nextId >= db.nextId && r.clock >= db.clock
    ensures WellFormed(db) ==> forall id :: id in db.rows && id in r.rows ==> SameIdentity(r.rows[id], db.rows[id])
    ensures WellFormed(db) ==> forall id :: id < db.nextId && id !in db.rows ==> id !in r.rows
  {
    match op
    case CreateOp(topic, jobType) => Create(db, topic, jobType).0
    case UpdateOp(id, status, output) => Update(db, id, status, output).0
    case DeleteOp(id) => Delete(db, id).0
    case TickOp(d) => Advance(db, d)
  }

  function Replay(db: Db, ops: seq<Op>): Db
    decreases |ops|
  {
    if ops == [] then db else Replay(Step(db, ops[0]), ops[1..])
  }

  /** After any history, every row still has created_at <= updated_at <= now
      and sits below the counter. */
  lemma {:induction false} ReplayKeepsWellFormed(db: Db, ops: seq<Op>)
    requires WellFormed(db)
    ensures WellFormed(Replay(db, ops))
    decreases |ops|
  {
    if ops != [] {
      ReplayKeepsWellFormed(Step(db, ops[0]), ops[1..]);
    }
  }

  /** AUTOINCREMENT: an id below the counter that is not in the table (it was
      deleted) never comes back, and neither the counter nor the clock goes back. */
  lemma {:induction false} ReplayNeverReusesIds(db: Db, ops: seq<Op>)
    requires WellFormed(db)
    ensures Replay(db, ops).nextId >= db.nextId && Replay(db, ops).clock >= db.clock
    ensures forall id :: id < db.nextId && id !in db.rows ==> id !in Replay(db, ops).rows
    decreases |ops|
  {
    if ops != [] {
      var next := Step(db, ops[0]);
      ReplayNeverReusesIds(next, ops[1..]);
    }
  }

  /** A row that survives a history keeps its id, topic, type and created_at. */
  lemma {:induction false} ReplayKeepsIdentity(db: Db, ops: seq<Op>)
    requires WellFormed(db)
    ensures forall id :: id in db.rows && id in Replay(db, ops).rows ==>
      SameIdentity(Replay(db, ops).rows[id], db.rows[id])
    decreases |ops|
  {
    if ops != [] {
      var next := Step(db, ops[0]);
      ReplayKeepsWellFormed(db, [ops[0]]);
      ReplayKeepsIdentity(next, ops[1..]);
      ReplayNeverReusesIds(next, ops[1..]);
      assert Replay(db, ops) == Replay(next, ops[1..]);
    }
  }

  // ---------------------------------------------------------- ORDER BY rows

  /** a comes no later than b in created_at order (ascending or descending). */
  predicate Precedes(a: Job, b: Job, descending: bool) {
    if descending then a.createdAt >= b.createdAt else a.createdAt <= b.createdAt
  }

  predicate SortedBy(s: seq<Job>, descending: bool) {
    forall i, k :: 0 <= i < k < |s| ==> Precedes(s[i], s[k], descending)
  }

  predicate DistinctIds(s: seq<Job>) {
    forall i, k :: 0 <= i < k < |s| ==> s[i].id != s[k].id
  }

  /** The rows a query keeps: all of them, or only the pending ones. */
  predicate Matches(job: Job, pendingOnly: bool) {
    !pendingOnly || job.status == Pending
  }

  /** s holds exactly the matching rows of the table, each once. */
  predicate Lists(s: seq<Job>, rows: map<int, Job>, pendingOnly: bool) {
    && (forall i :: 0 <= i < |s| ==> s[i].id in rows && rows[s[i].id] == s[i] && Matches(s[i], pendingOnly))
    && (forall id :: id in rows && Matches(rows[id], pendingOnly) ==> rows[id] in s)
    && DistinctIds(s)
  }

  lemma ConsSorted(x: Job, t: seq<Job>, descending: bool)
    requires SortedBy(t, descending)
    requires forall y :: y in t ==> Precedes(x, y, descending)
    ensures SortedBy([x] + t, descending)
  {
    var r := [x] + t;
    forall i, k | 0 <= i < k < |r| ensures Precedes(r[i], r[k], descending) {
      assert r[k] == t[k - 1];
      if i > 0 {
        assert r[i] == t[i - 1];
      }
    }
  }

  lemma ConsDistinct(x: Job, t: seq<Job>)
    ensures DistinctIds(t) && (forall y :: y in t ==> y.id != x.id) ==> DistinctIds([x] + t)
  {
    var r := [x] + t;
    if DistinctIds(t) && (forall y :: y in t ==> y.id != x.id) {
      forall i, k | 0 <= i < k < |r| ensures r[i].id != r[k].id {
        assert r[k] == t[k - 1];
        if i > 0 {
          assert r[i] == t[i - 1];
        }
      }
    }
  }

  /** The tail of a sorted result with distinct ids is sorted, and its ids
      are distinct and differ from the head's. */
  lemma TailSorted(s: seq<Job>, descending: bool)
    requires s != [] && SortedBy(s, descending)
    ensures SortedBy(s[1..], descending)
    ensures forall y :: y in s[1..] ==> Precedes(s[0], y, descending)
    ensures DistinctIds(s) ==> DistinctIds(s[1..]) && forall y :: y in s[1..] ==> y.id != s[0].id
  {
    var t := s[1..];
    forall i, k | 0 <= i < k < |t| ensures Precedes(t[i], t[k], descending) {
      assert t[i] == s[i + 1] && t[k] == s[k + 1];
    }
    forall y | y in t ensures Precedes(s[0], y, descending) {
      var k :| 0 <= k < |t| && t[k] == y;
      assert s[k + 1] == y;
    }
    if DistinctIds(s) {
      forall i, k | 0 <= i < k < |t| ensures t[i].id != t[k].id {
        assert t[i] == s[i + 1] && t[k] == s[k + 1];
      }
      forall y | y in t ensures y.id != s[0].id {
        var k :| 0 <= k < |t| && t[k] == y;
        assert s[k + 1] == y;
      }
    }
  }

  /** Puts a row into a sorted result after the rows that come before it. */
  function InsertSorted(s: seq<Job>, job: Job, descending: bool): (r: seq<Job>)
    requires SortedBy(s, descending)
    ensures SortedBy(r, descending)
    ensures multiset(r) == multiset(s) + multiset{job}
    ensures forall x :: x in r <==> x in s || x == job
    ensures DistinctIds(s) && (forall x :: x in s ==> x.id != job.id) ==> DistinctIds(r)
    decreases |s|
  {
    if s == [] || Precedes(job, s[0], descending) then
      ConsSorted(job, s, descending);
      ConsDistinct(job, s);
      [job] + s
    else
      TailSorted(s, descending);
      var t := InsertSorted(s[1..], job, descending);
      assert s == [s[0]] + s[1..];
      ConsSorted(s[0], t, descending);
      ConsDistinct(s[0], t);
      [s[0]] + t
  }

  // ----------------------------------------------------------- the object

  /** The database handle of db.go, owning the jobs table. */
  class JobStore {
    var rows: map<int, Job>
    var nextId: int
    var clock: int

    function State(): Db
      reads this
    {
      Db(rows, nextId, clock)
    }

    ghost predicate Valid()
      reads this
    {
      WellFormed(State())
    }

    /** An empty table (createTables), with the clock at start. */
    constructor (start: int)
      ensures Valid() && rows == map[] && nextId == 1 && clock == start
    {
      rows, nextId, clock := map[], 1, start;
    }

    method Tick(d: nat)
      requires Valid()
      modifies this
      ensures Valid() && State() == Advance(old(State()), d)
    {
      clock := clock + d;
    }

    method CreateJob(topic: string, jobType: string) returns (job: Job)
      requires Valid()
      modifies this
      ensures Valid()
      ensures (State(), job) == Create(old(State()), topic, jobType)
    {
      var kind := jobType;
      if kind == "" {
        kind := DefaultType;
      }
      job := Job(nextId, topic, kind, Pending, "", clock, clock);
      rows := rows[job.id := job];
      nextId := nextId + 1;
    }

    /** The SQL engine's SELECT over the table: the matching rows, ordered by
        created_at, ties in no particular order. The scan visits the ids below
        the counter in turn. */
    method Select(pendingOnly: bool, descending: bool) returns (cursor: seq<Job>)
      requires Valid()
      ensures Lists(cursor, rows, pendingOnly) && SortedBy(cursor, descending)
    {
      cursor := [];
      var id := 1;
      while id < nextId
        invariant 1 <= id <= nextId
        invariant SortedBy(cursor, descending) && DistinctIds(cursor)
        invariant forall i :: 0 <= i < |cursor| ==>
          cursor[i].id < id && cursor[i].id in rows && rows[cursor[i].id] == cursor[i] && Matches(cursor[i], pendingOnly)
        invariant forall k :: k in rows && k < id && Matches(rows[k], pendingOnly) ==> rows[k] in cursor
      {
        if id in rows && Matches(rows[id], pendingOnly) {
          var before := cursor;
          cursor := InsertSorted(cursor, rows[id], descending);
          forall i | 0 <= i < |cursor| ensures cursor[i] in before || cursor[i] == rows[id] {
            assert cursor[i] in cursor;
          }
        }
        id := id + 1;
      }
    }

    /** getJobs: every row, newest first. */
    method GetJobs() returns (jobs: seq<Job>)
      requires Valid()
      ensures Lists(jobs, rows, false) && SortedBy(jobs, true)
    {
      var cursor := Select(false, true);
      jobs := [];
      var i := 0;
      while i < |cursor|
        invariant 0 <= i <= |cursor|
        invariant jobs == cursor[..i]
      {
        jobs := jobs + [cursor[i]];
        i := i + 1;
      }
    }

    /** getJobByID: the row with that id, or "job not found". */
    method GetJobByID(id: int) returns (r: Result<Job>)
      ensures r.Ok? <==> id in rows
      ensures r.Ok? ==> r.value == rows[id]
      ensures r.Err? ==> r.error == NotFound
    {
      if id in rows {
        r := Ok(rows[id]);
      } else {
        r := Err(NotFound);
      }
    }

    method DeleteJob(id: int) returns (r: Outcome)
      requires Valid()
      modifies this
      ensures Valid()
      ensures (State(), r) == Delete(old(State()), id)
    {
      if id in rows {
        rows := rows - {id};
        r := Done;
      } else {
        r := Fail(NotFound);
      }
    }

    method UpdateJobStatus(id: int, status: Status, output: string) returns (r: Outcome)
      requires Valid()
      modifies this
      ensures Valid()
      ensures (State(), r) == Update(old(State()), id, status, output)
    {
      if id in rows {
        rows := rows[id := rows[id].(status := status, output := output, updatedAt := clock)];
        r := Done;
      } else {
        r := Fail(NotFound);
      }
    }
  }
}
