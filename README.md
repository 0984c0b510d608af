# Content job queue: store, workers and generator

This project models the core of a small content-generation service. Clients
queue jobs, each a topic and a content type. These are rows of a SQLite
`jobs` table. A worker takes the oldest pending job, marks it `processing`,
generates an article for its topic, and records the job as `completed`
with the text. When no text comes back it records the job as `failed` with a
fixed message. The service has a Go worker and a Python twin. The Go worker's
generator fills one of two `fmt.Sprintf` templates: the "enhanced" one when
a local model file was found, the "fallback" one when it was not.

The model has five modules, one per source file:

- `Models` (models.go) holds the `Job` row, the `Status` enum and the
  status/output pairing the lifecycle keeps. A job has no output while it is
  pending or processing, and some output once it has finished.
- `Store` (db.go) models the table as a map from id to row, plus the
  AUTOINCREMENT counter and an abstract clock. Each SQL statement is first a
  function on a table value (`Create`, `Delete`, `Update`). Then it is a
  method of the class `JobStore` that owns the table. Each method's
  `ensures` ties the new state to that function. `Replay` runs any history
  of statements and time steps. The lemmas about it give the table's
  invariants: ids are never reused and a row's identity columns never change.
  With a single clock, `created_at <= updated_at <= now` also holds; the
  program's two time sources do not guarantee that (see "## Left out").
  `JobStore.Select` stands for the SQL engine's `ORDER BY created_at` scan.
- `Worker` (worker.go) models the Go `ContentWorker` as a class over a
  `JobStore`. `ProcessSteps` states the writes of `processJob` on a table
  value, and `ProcessEach` states a sweep over a snapshot of jobs. The
  methods `GetPendingJob`, `GetAllPendingJobs`, `ProcessJob`,
  `ProcessAllPending`, `Stop` and one iteration of `run` (`RunStep`) are
  proved against them. `RunFor` is `run` bounded to a number of iterations.
- `WorkerPy` (worker.py) models the Python `ContentWorker`. Its
  `update_job_status` reports success even when no row matched. Its
  generator may raise. Database errors are explicit `fault` flags.
- `Llm` (llm.go) models `fmt.Sprintf` for `%s` verbs, including what Go
  prints for a verb left without an operand. It also models the two
  templates, `GenerateContent`, `filepath.Base` for `/`-separated paths, and
  the model-file name test of `findModel`.

The worker holds its generator's `GenerateContent` as a function value. The
`Worker.ContentWorker` constructor binds it to `Llm.GenerateContentAsWritten`,
which fills the templates as the program does, `%!s(MISSING)` included. The
named constructor `WithIntendedTemplates` binds it instead to
`Llm.GenerateContent`, the corrected templates (see "## Findings"). Both
constructors prove that the value never returns "". That is why `ProcessJob`
can state that an existing job always ends `completed`. The `failed` branch
of `processJob` (worker.go:113-116) is unreachable with either generator. Both
generators are functions, so they are deterministic by construction.

Time is one clock that only moves forward. It stands for Go's `time.Now()`
in `createJob` and for SQL `CURRENT_TIMESTAMP` in `updateJobStatus`. Sleeping
advances it: 2 seconds in the Go loop, 5 in the Python loop.

The HTTP handler rejects a blank topic (handlers.go:22, with
`strings.TrimSpace`), but `createJob` (db.go:53) stores any topic. The model
follows `createJob`, so `Create` has no precondition on the topic.

## Model

| member | source | states |
|---|---|---|
| `Store.Create` | db.go:53-80 | The new row is pending with empty output under the counter's id. Its topic is stored as given and its type is the given one, or "blog" when empty. created_at equals updated_at, which is now. The table gains exactly this row and the counter moves by one. The id differs from every existing id. Well-formedness and the status/output pairing are preserved. |
| `Store.Delete` | db.go:123-141 | Done exactly when the id was present, whatever the row's status. Only that row goes and every other row is untouched. An absent id gives "job not found" with the table unchanged. |
| `Store.Update` | db.go:143-161 | Done exactly when the id was present. Only that row's status, output and updated_at change: id, topic, type, created_at and every other row stay as they were. An absent id gives "job not found" with no change. Well-formedness is kept. A consistent status/output pair keeps the pairing invariant. |
| `Store.Advance` | worker.go:39 | Time passing, as during the worker's sleep (worker.go:39, and worker.py:111 in the Python worker): the clock does not go back and no row changes. |
| `Store.Step` | db.go:53-161 | Any one statement or time step keeps the table well formed and never lowers the counter or the clock. It keeps the identity columns of surviving rows, and it never brings back a deleted id. |
| `Store.ReplayKeepsWellFormed` | db.go:53-161 | After any history of creates, updates, deletes and time steps, every row still has created_at <= updated_at <= now and an id below the counter. |
| `Store.ReplayNeverReusesIds` | db.go:31 | AUTOINCREMENT: after any history, an id below the starting counter that was absent stays absent, and neither the counter nor the clock has gone back. |
| `Store.ReplayKeepsIdentity` | db.go:143-161 | A row that survives any history keeps its id, topic, type and created_at. |
| `Store.InsertSorted` | db.go:87 | Inserting a row into a created_at-sorted result keeps it sorted. The result is a permutation of the old rows plus the new one, and distinct ids stay distinct. |
| `Store.JobStore.constructor` | db.go:28-38 | The table starts empty, with the counter at 1. |
| `Store.JobStore.Tick` | worker.go:39 | The clock advances by the given seconds and nothing else changes. |
| `Store.JobStore.CreateJob` | db.go:53-80 | The new table and the returned job are those of `Create`. |
| `Store.JobStore.Select` | db.go:87 | The result holds exactly the matching rows (all, or the pending ones), each once, sorted by created_at ascending or descending. |
| `Store.JobStore.GetJobs` | db.go:82-106 | It returns exactly the rows of the table, each once, newest first. An empty table gives an empty list. |
| `Store.JobStore.GetJobByID` | db.go:108-121 | It returns the row with that id, or "job not found" exactly when no row has it. |
| `Store.JobStore.DeleteJob` | db.go:123-141 | The new table and the outcome are those of `Delete`. |
| `Store.JobStore.UpdateJobStatus` | db.go:143-161 | The new table and the outcome are those of `Update`. |
| `Worker.ProcessSteps` | worker.go:93-117 | If the claim finds no row, the table is unchanged and no further write happens. Otherwise only that row changes: completed with the content, or failed with "Content generation failed" when the content is empty, stamped now. Well-formedness and the status/output pairing are preserved. |
| `Worker.ProcessLeavesQueue` | worker.go:93-117 | Processing a pending job removes exactly that id from the pending set, so the pending count drops by one. |
| `Worker.ProcessEachSnoc` | worker.go:49-51 | Sweeping a snapshot and then one more job is the same as running processJob on that job after the sweep. |
| `Worker.ProcessEachEffect` | worker.go:45-52 | After a sweep over jobs with distinct ids, each swept row that exists is finished with the content for its topic. Every other row, the id set, the counter and the clock are unchanged. |
| `Worker.SweepFinishesQueue` | worker.go:45-52 | A sweep over the pending queue finishes every pending row with its generated content. Non-pending rows are untouched and no row is left pending. |
| `Worker.ContentWorker.constructor` | worker.go:14-19 | A new worker is running, with a generator holding the given model path. Its generate function equals `Llm.GenerateContentAsWritten` of that generator, the text the program produces, and never returns "". |
| `Worker.ContentWorker.WithIntendedTemplates` | worker.go:14-19 | The same worker, with a generate function equal to `Llm.GenerateContent`, the corrected templates. It never returns "". |
| `Worker.ContentWorker.Stop` | worker.go:26-29 | running is false. |
| `Worker.ContentWorker.GetPendingJob` | worker.go:54-67 | It returns nil exactly when no job is pending. Otherwise it returns the id, topic and type of a pending row whose created_at is minimal among the pending rows. |
| `Worker.ContentWorker.GetAllPendingJobs` | worker.go:69-91 | It returns exactly the pending jobs, each once, in created_at ascending order. |
| `Worker.ContentWorker.ProcessJob` | worker.go:93-117 | The new table is `ProcessSteps` with the generator's content. A job that exists ends completed, with output equal to the generated content (the as-written text for a worker built by the plain constructor). |
| `Worker.ContentWorker.RecordOutcome` | worker.go:107-116 | It writes completed with the content, or failed with "Content generation failed" when the content is empty. |
| `Worker.ContentWorker.ProcessAllPending` | worker.go:45-52 | The snapshot is the pending queue at the start, and the new table is the in-order sweep over it. Afterwards no job is pending, and with no pending jobs the table is unchanged. |
| `Worker.ContentWorker.ProcessInOrder` | worker.go:49-51 | Processing a list of jobs one after another leaves exactly the table of the in-order sweep `ProcessEach` over that list. |
| `Worker.ContentWorker.RunStep` | worker.go:33-41 | When not running, nothing changes. Otherwise, with no pending job, the worker sleeps 2 seconds and no row changes. With a pending job, it processes the oldest one, whose id leaves the pending set, so the pending count drops by one. |
| `Worker.ContentWorker.RunFor` | worker.go:31-43 | After Stop, no iteration runs and nothing changes. With no other writer, as many iterations as there were pending jobs empty the queue. The set of ids never changes. |
| `WorkerPy.FinalWrite` | worker.py:81-96 | The status is completed exactly when the generator returned a non-empty text, with that text as output. An empty text gives failed with "Content generation failed". An exception gives failed with "Processing error: " and its message. The output is never empty. |
| `WorkerPy.PyUpdate` | worker.py:48-68 | It returns true exactly when there is no database error. With no row matched it still returns true and writes nothing. With a match it sets that row's status, output and updated_at, keeps its id, topic, type and created_at, and leaves every other row, the counter and the clock unchanged. A database error leaves the table unchanged. Well-formedness is kept. |
| `WorkerPy.PyProcessSteps` | worker.py:70-96 | A failed claim, or a missing row, leaves the table unchanged. When only the finishing write fails, the row stays processing with empty output. Otherwise only that row changes, to the `FinalWrite` status and output. Well-formedness and the status/output pairing are preserved. |
| `WorkerPy.AgreesWithGoWorker` | worker.py:70-96 | With no database error and a returned text, process_job leaves exactly the table that the Go processJob leaves. |
| `WorkerPy.StrandedWhenFinishFails` | worker.py:85-96 | When the finishing write hits a database error, a claimed pending job is left processing and is gone from the pending set. |
| `WorkerPy.ProcessLeavesQueue` | worker.py:77-96 | Without a claim error, processing a pending job removes exactly its id from the pending set, whatever the generator does. |
| `WorkerPy.ContentWorker.constructor` | worker.py:14-22 | A new worker is running over the given table. |
| `WorkerPy.ContentWorker.GetPendingJob` | worker.py:24-46 | A database error gives None. Without one, it gives None exactly when no job is pending, and otherwise the id and topic of a pending row with minimal created_at. |
| `WorkerPy.ContentWorker.UpdateJobStatus` | worker.py:48-68 | The table and the result are those of `PyUpdate`. |
| `WorkerPy.ContentWorker.ProcessJob` | worker.py:70-96 | The new table is `PyProcessSteps` for the job's id. |
| `WorkerPy.ContentWorker.RunStep` | worker.py:102-111 | When not running, nothing changes. A query error or an empty queue gives a 5-second sleep, with no row changed. Otherwise it processes the oldest pending job, and without a claim error the pending count drops by one. |
| `Llm.EnhancedGenerationAsWritten` | llm.go:58-135 | As written, with 11 verbs and 10 operands, the output opens with the outline and "- Introduction to " plus the topic, and is non-empty. It ends with "%!s(MISSING)*". |
| `Llm.FallbackGenerationAsWritten` | llm.go:137-169 | As written, with 10 verbs and 9 operands, the output opens with the outline and the topic. Its last sentence reads "%!s(MISSING)" where the topic belongs, and it ends with the fallback signature. |
| `Llm.EnhancedAsWrittenDropsModelName` | llm.go:133-134 | As written, the enhanced output does not end with the model's base name and "*", for every base name whose last character is not ')'. That covers every .gguf or .ggml file; for a base such as ")" the output does end in ")*". |
| `Llm.FallbackAsWrittenDropsLastTopic` | llm.go:165-168 | As written, the fallback output does not end with the topic and the closing sentence, for every non-empty topic whose last character is not ')'. For the topics "" and ")" the output does end that way. |
| `Llm.EnhancedAsWrittenExample` | llm.go:133-134 | For the model file models/llama.gguf, whose base name is llama.gguf, the output as written does not end with "llama.gguf*". |
| `Llm.FallbackAsWrittenExample` | llm.go:165-168 | For the topic "rust ownership", the fallback output as written ends with "%!s(MISSING)" and the closing, not with the topic. |
| `Llm.EnhancedGeneration` | llm.go:58-135 | With the topic for all ten topic verbs, the output opens with the outline and the topic, contains "- Introduction to " plus the topic, and ends with the model's base name followed by "*". |
| `Llm.FallbackGeneration` | llm.go:137-169 | With the topic for all ten verbs, the output opens with the outline and the topic, contains "- Introduction to " plus the topic, and ends with the topic, the closing sentence and "*Generated using fallback content generation*". |
| `Llm.TemplatesDiffer` | llm.go:50-56 | For every topic and model path, the intended enhanced output differs from the intended fallback output. |
| `Llm.TemplatesAsWrittenDiffer` | llm.go:50-56 | For every topic and model path, the enhanced output as written differs from the fallback output as written. |
| `Llm.GenerateContentAsWritten` | llm.go:50-56 | As the program runs it: the output is non-empty for every topic, "" included, and contains "- Introduction to " plus the topic. It is the as-written enhanced text exactly when the model path is non-empty, and the as-written fallback text exactly when it is empty. |
| `Llm.GenerateContent` | llm.go:50-56 | With the corrected templates: the output is non-empty for every topic, "" included, and contains "- Introduction to " plus the topic. It is the intended enhanced text exactly when the model path is non-empty, and the intended fallback text exactly when it is empty. |
| `Llm.Base` | llm.go:134 | filepath.Base never returns an empty string. |
| `Llm.BaseOfFileName` | llm.go:42 | The base of a directory joined with a file name is that file name. |
| `Llm.ToLower` | llm.go:40 | Lowering keeps the length and leaves no upper-case ASCII letter. Each upper-case letter becomes the lower-case letter at the same place in the alphabet, and every other character is kept. |
| `Llm.LowerSuffix` | llm.go:40-41 | The lowered name ends with an extension exactly when the name ends with it, ignoring ASCII case. |
| `Llm.IsModelFile` | llm.go:38-44 | An entry is accepted exactly when it is not a directory and its name ends in ".gguf" or ".ggml", ignoring case. An accepted name has a '.' five characters from its end. |

## Left out

- The HTTP layer (handlers.go, main.go) is not part of this model. It covers routing, JSON, the error-to-status mapping, the dashboard and server start-up.
- Database engine errors in the Go code are not modelled: failures of `db.Exec`, `LastInsertId`, `RowsAffected`, `Query` and `Scan`, and the "database not initialized" check in `getJobs`. The only Go failure modelled is "job not found". In the Python worker every `sqlite3.Error` is a `fault` flag.
- Connection handling is not modelled: `initDB`, opening and closing connections, the indexes, and `COALESCE` of a NULL type. No operation of the model stores a NULL type.
- Concurrency is not modelled: the goroutines started by `Start` and by the HTTP handler, and the race between `run` and `ProcessAllPending` over the same pending job. The model has one sequential caller.
- Real time is not modelled. Sleeping only advances the clock.
- `Store.ReplayKeepsWellFormed`: its `created_at <= updated_at <= now` rests on one clock standing for both of the program's time sources. The program stores Go's sub-second local `time.Now()` at creation (db.go:55, db.go:61) and SQLite's whole-second UTC `CURRENT_TIMESTAMP` at every update (db.go:144). So a job claimed in the same second it was created can read an updated_at earlier than its created_at, and the two formats need not compare in time order. The model does not capture this.
- `Worker.ContentWorker.RunFor`: `run` loops for as long as `running` holds, and with one sequential caller nothing can clear that flag mid-loop. So the loop is modelled as one iteration (`RunStep`) and as a run bounded by an iteration count.
- The directory walk of `findModel` and `NewLLMGenerator`'s call to it are I/O and are not modelled. The model path is an argument of the worker's constructor, and only the per-entry name test (`IsModelFile`) is modelled.
- The Go worker uses the package-level `db` handle. The model passes the `JobStore` to the constructor instead.
- generate.py is not part of this model. The Python generator's result (a text, possibly empty, or an exception) is a parameter of `process_job` and of one `run` iteration.
- The Python loop's `except Exception` branch, with its 10-second sleep, is not modelled. Neither is `KeyboardInterrupt` handling or the shutdown in `main`. No modelled step raises outside the generator call that `process_job` already catches.
- Logging is not modelled anywhere.
- `Llm.ToLower`: lowers ASCII letters only. Go's `strings.ToLower` also folds non-ASCII letters, so a name whose extension is spelled with non-ASCII letters that lower to "gguf" is not covered.
- `Llm.Base`: `/` is the only separator. Windows volume names and `\` separators are not modelled.
- The `fmt.Sprintf` model covers templates whose only verbs are `%s` and which get no more operands than verbs. Those are the only calls in the modelled code.
- `Llm.GenerateContent` and `Worker.ContentWorker.WithIntendedTemplates` use the corrected templates (see "## Findings"). Their text differs from the program's in the last verb of each template; `Llm.GenerateContentAsWritten` and the plain constructor give the program's text.

## Findings

| source | as written | input that shows it | evidently intended | confidence | as-written member | corrected member |
|---|---|---|---|---|---|---|
| llm.go:58-134 | The enhanced template has 11 `%s` verbs and gets 10 operands: nine topics and the model's base name. The base name fills the tenth verb ("llama.gguf represents a valuable domain…") and the last verb prints `%!s(MISSING)`. | topic "rust ownership", model path "models/llama.gguf": the output ends "…with local model: %!s(MISSING)*" | the topic for the first ten verbs and the model's base name for the last, so that the output ends "…with local model: llama.gguf*" | not executed | `Llm.EnhancedGenerationAsWritten`, `Llm.EnhancedAsWrittenDropsModelName`, `Llm.EnhancedAsWrittenExample` | `Llm.EnhancedGeneration`, used by `Llm.GenerateContent` |
| llm.go:137-168 | The fallback template has 10 `%s` verbs and gets 9 topic operands, so its last sentence prints "learn about %!s(MISSING), we can…". | topic "rust ownership", no model file | the topic for all ten verbs | not executed | `Llm.FallbackGenerationAsWritten`, `Llm.FallbackAsWrittenDropsLastTopic`, `Llm.FallbackAsWrittenExample` | `Llm.FallbackGeneration`, used by `Llm.GenerateContent` |
