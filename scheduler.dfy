/**
 The scheduler API of src/api/scheduler.ts as transitions of the coordination
 store. Everything the scheduler learns from outside the store is an input: the
 planner's answer, whether a worker answers the start request, which of the
 offered tasks it forks, the worker filter `canRun`, the clock, the random job
 id and the stack depth left for `job.deps`.
 */
module Scheduler {
  import opened Prelude
  import opened Models
  import opened Kv

  /** What the scheduler's environment answers. */
  datatype World = World(
    plans: (string, string) -> Option<seq<Assignment>>,  // `stp.plan(...)` for a job id and a step
    reachable: string -> bool,                           // the start request to this worker id resolves
    forked: string -> bool,                              // the worker forks the task with this id
    depth: nat,                                          // stack frames left for `job.deps`
    now: int)                                            // `Date.now()`

  // ---------------------------------------------------------------------
  // select

  /** `Array.from(new Set(ids))`, leaving out `seen`: first occurrences, in order. */
  function Dedupe(ids: seq<string>, seen: set<string>): (r: seq<string>)
    ensures Distinct(r)
    ensures forall x :: x in r <==> x in ids && x !in seen
  {
    if ids == [] then []
    else if ids[0] in seen then Dedupe(ids[1..], seen)
    else
      var rest := Dedupe(ids[1..], seen + {ids[0]});
      assert ids[0] !in rest;
      [ids[0]] + rest
  }

  /** The worker ids listed under each tag's namespace, tag after tag. */
  function Tagged(kv: Store, tags: seq<string>): seq<string>
  {
    if tags == [] then [] else Listing(kv, TaggedPrefix(tags[0])) + Tagged(kv, tags[1..])
  }

  /** An id is listed when it is tagged with ANY of the tags. */
  lemma {:induction false} TaggedUnion(kv: Store, tags: seq<string>, id: string)
    ensures id in Tagged(kv, tags) <==> exists t :: t in tags && TaggedPrefix(t) + id in kv
  {
    if tags != [] {
      TaggedUnion(kv, tags[1..], id);
      if exists t :: t in tags && TaggedPrefix(t) + id in kv {
        var t :| t in tags && TaggedPrefix(t) + id in kv;
        if t != tags[0] {
          assert t in tags[1..];
        }
      }
    }
  }

  /** The tagged, deduplicated ids whose dispatch lock is free. */
  function Candidates(kv: Store, tags: seq<string>): seq<string>
  {
    Filter(Dedupe(Tagged(kv, tags), {}), id => DispatchLock(id) !in kv)
  }

  /** `new Worker(await etcd.get('worker/' + id).json())`: a missing heartbeat gives the default worker. */
  function WorkerOf(kv: Store, id: string, now: int): Worker
  {
    if WorkerKey(id) in kv && kv[WorkerKey(id)].WorkerV? then kv[WorkerKey(id)].worker else DefaultWorker(now)
  }

  /** `select(tags, usage)`, with `worker.canRun({ usage })` given as `canRun`. */
  function Select(kv: Store, tags: seq<string>, canRun: Worker -> bool, now: int): seq<Worker>
  {
    Filter(MapSeq(Candidates(kv, tags), id => WorkerOf(kv, id, now)), canRun)
  }

  /**
   The candidates are the union of the tagged ids, each once, minus the ids
   whose `worker/dispatching/{id}` key is present.
   */
  lemma CandidatesExact(kv: Store, tags: seq<string>, id: string)
    ensures id in Candidates(kv, tags) <==>
      (exists t :: t in tags && TaggedPrefix(t) + id in kv) && DispatchLock(id) !in kv
    ensures Distinct(Candidates(kv, tags))
  {
    TaggedUnion(kv, tags, id);
    var c := Candidates(kv, tags);
    var d := Dedupe(Tagged(kv, tags), {});
    forall i, j | 0 <= i < j < |c| ensures c[i] != c[j] {
      FilterKeepsOrder(d, (x: string) => DispatchLock(x) !in kv, i, j);
    }
  }

  /** A filter of a sequence without repetitions has none either. */
  lemma {:induction false} FilterKeepsOrder(s: seq<string>, keep: string -> bool, i: int, j: int)
    requires Distinct(s)
    requires 0 <= i < j < |Filter(s, keep)|
    ensures Filter(s, keep)[i] != Filter(s, keep)[j]
  {
    var r := Filter(s, keep);
    if keep(s[0]) {
      if i == 0 {
        assert r[j] in Filter(s[1..], keep);
        assert s[0] !in s[1..];
      } else {
        FilterKeepsOrder(s[1..], keep, i - 1, j - 1);
      }
    } else {
      FilterKeepsOrder(s[1..], keep, i, j);
    }
  }

  /** `select` returns exactly the records of the unlocked candidates that `canRun` accepts. */
  lemma SelectExact(kv: Store, tags: seq<string>, canRun: Worker -> bool, now: int, w: Worker)
    ensures w in Select(kv, tags, canRun, now) <==>
      canRun(w) && exists id :: id in Candidates(kv, tags) && w == WorkerOf(kv, id, now)
  {
    LookupThenFilter(Candidates(kv, tags), id => WorkerOf(kv, id, now), canRun, w);
  }

  /** Looking every id up and then filtering keeps exactly the accepted records of listed ids. */
  lemma LookupThenFilter(ids: seq<string>, lookup: string -> Worker, keep: Worker -> bool, w: Worker)
    ensures w in Filter(MapSeq(ids, lookup), keep) <==> keep(w) && exists id :: id in ids && w == lookup(id)
  {
    var ws := MapSeq(ids, lookup);
    if w in ws {
      var i :| 0 <= i < |ws| && ws[i] == w;
      assert ids[i] in ids;
    }
    if exists id :: id in ids && w == lookup(id) {
      var id :| id in ids && w == lookup(id);
      var i :| 0 <= i < |ids| && ids[i] == id;
      assert ws[i] == w;
    }
  }

  // ---------------------------------------------------------------------
  // dispatch

  /** The ids the worker answers with: the offered tasks it managed to fork. */
  function Accepted(tasks: map<string, Task>, forked: string -> bool): (r: seq<string>)
    ensures forall id :: id in r <==> id in tasks && forked(id)
  {
    var ids := SortedKeys(tasks.Keys);
    forall id | id in tasks ensures id in ids {
      SortedKeysComplete(tasks.Keys, id);
    }
    Filter(ids, forked)
  }

  /** One `put` of a started record per id, in order. */
  function PutEach(kv: Store, prefix: string, tasks: map<string, Task>, ids: seq<string>): Store
    requires forall i :: 0 <= i < |ids| ==> ids[i] in tasks
    decreases |ids|
  {
    if ids == [] then kv
    else PutEach(kv[prefix + ids[0] := TaskV(tasks[ids[0]])], prefix, tasks, ids[1..])
  }

  lemma PrefixCancels(prefix: string, a: string, b: string)
    requires prefix + a == prefix + b
    ensures a == b
  {
    assert a == (prefix + a)[|prefix|..];
    assert b == (prefix + b)[|prefix|..];
  }

  /**
   The puts write `prefix + id` with `tasks[id]` for each id and leave every
   other key as it was.
   */
  lemma {:induction false} PutEachSpec(kv: Store, prefix: string, tasks: map<string, Task>, ids: seq<string>, k: string)
    requires forall i :: 0 <= i < |ids| ==> ids[i] in tasks
    ensures var r := PutEach(kv, prefix, tasks, ids);
      && (k in r <==> k in kv || (StartsWith(k, prefix) && k[|prefix|..] in ids))
      && (StartsWith(k, prefix) && k[|prefix|..] in ids ==> r[k] == TaskV(tasks[k[|prefix|..]]))
      && (k in kv && !(StartsWith(k, prefix) && k[|prefix|..] in ids) ==> r[k] == kv[k])
    decreases |ids|
  {
    if ids != [] {
      var kv' := kv[prefix + ids[0] := TaskV(tasks[ids[0]])];
      PutEachSpec(kv', prefix, tasks, ids[1..], k);
      var hit := StartsWith(k, prefix) && k[|prefix|..] == ids[0];
      assert hit <==> k == prefix + ids[0] by {
        if k == prefix + ids[0] {
          assert k[|prefix|..] == ids[0];
        }
        if hit {
          assert k == k[..|prefix|] + k[|prefix|..];
        }
      }
      if StartsWith(k, prefix) {
        assert k[|prefix|..] in ids <==> k[|prefix|..] == ids[0] || k[|prefix|..] in ids[1..] by {
          assert ids == [ids[0]] + ids[1..];
        }
      }
    }
  }

  /**
   `dispatch(job, step, worker, tasks)`: acquire `worker/dispatching/{worker}`
   (a present key makes the acquire fail), ask the worker, put a started record
   for each id it answers with, release. A failed acquire or start request is
   only logged, and the lock is released on the success path alone.
   */
  function DispatchSpec(kv: Store, jobId: string, step: string, workerId: string, tasks: map<string, Task>,
                        reachable: bool, forked: string -> bool): Store
  {
    var lock := DispatchLock(workerId);
    if lock in kv then kv
    else if !reachable then kv[lock := LockV]
    else PutEach(kv[lock := LockV], StartedPrefix(jobId, step), tasks, Accepted(tasks, forked)) - {lock}
  }

  lemma LockNotStarted(workerId: string, jobId: string, step: string)
    ensures !StartsWith(DispatchLock(workerId), StartedPrefix(jobId, step))
  {
    OutsideNamespace(DispatchLock(workerId), StartedPrefix(jobId, step), 0);
  }

  /**
   A successful dispatch holds exactly the started records of the ids the
   worker accepted, with the task offered under that id, releases the lock,
   and changes nothing else.
   */
  lemma DispatchWritesAccepted(kv: Store, jobId: string, step: string, workerId: string, tasks: map<string, Task>,
                               forked: string -> bool, k: string)
    requires DispatchLock(workerId) !in kv
    ensures var r := DispatchSpec(kv, jobId, step, workerId, tasks, true, forked);
      var prefix := StartedPrefix(jobId, step);
      var taken := StartsWith(k, prefix) && k[|prefix|..] in tasks && forked(k[|prefix|..]);
      && DispatchLock(workerId) !in r
      && (k != DispatchLock(workerId) ==> (k in r <==> k in kv || taken))
      && (taken ==> k in r && r[k] == TaskV(tasks[k[|prefix|..]]))
      && (k in kv && !taken ==> r[k] == kv[k])
  {
    var lock := DispatchLock(workerId);
    var prefix := StartedPrefix(jobId, step);
    var ids := Accepted(tasks, forked);
    LockNotStarted(workerId, jobId, step);
    PutEachSpec(kv[lock := LockV], prefix, tasks, ids, k);
    PutEachSpec(kv[lock := LockV], prefix, tasks, ids, lock);
  }

  /** The dispatch lock is left held exactly when it was free and the start request failed. */
  lemma DispatchLockOutcome(kv: Store, jobId: string, step: string, workerId: string, tasks: map<string, Task>,
                            reachable: bool, forked: string -> bool)
    ensures DispatchLock(workerId) in DispatchSpec(kv, jobId, step, workerId, tasks, reachable, forked)
      <==> DispatchLock(workerId) in kv || !reachable
  {
  }

  /** Keys a dispatch of `step` of `jobId` cannot touch: outside its started namespace and not a dispatch lock. */
  predicate Untouched(k: string, jobId: string, step: string)
  {
    !StartsWith(k, "worker/dispatching/") && !StartsWith(k, StartedPrefix(jobId, step))
  }

  lemma {:induction false} DispatchFrame(kv: Store, jobId: string, step: string, workerId: string,
                                         tasks: map<string, Task>, reachable: bool, forked: string -> bool, k: string)
    requires Untouched(k, jobId, step)
    ensures var r := DispatchSpec(kv, jobId, step, workerId, tasks, reachable, forked);
      (k in r <==> k in kv) && (k in kv ==> r[k] == kv[k])
  {
    var lock := DispatchLock(workerId);
    assert k != lock by {
      assert StartsWith(lock, "worker/dispatching/");
    }
    if lock !in kv && reachable {
      PutEachSpec(kv[lock := LockV], StartedPrefix(jobId, step), tasks, Accepted(tasks, forked), k);
    }
  }

  // ---------------------------------------------------------------------
  // start

  /** `Promise.all(plans.map(p => dispatch(job, step, p.worker, p.tasks)))`, one dispatch after another. */
  function DispatchAll(kv: Store, job: Job, step: string, plans: seq<Assignment>, w: World): Store
    decreases |plans|
  {
    if plans == [] then kv
    else
      var p := plans[0];
      DispatchAll(DispatchSpec(kv, job.id, step, p.worker.id, p.tasks, w.reachable(p.worker.id), w.forked),
                  job, step, plans[1..], w)
  }

  lemma {:induction false} DispatchAllFrame(kv: Store, job: Job, step: string, plans: seq<Assignment>, w: World, k: string)
    requires Untouched(k, job.id, step)
    ensures var r := DispatchAll(kv, job, step, plans, w);
      (k in r <==> k in kv) && (k in kv ==> r[k] == kv[k])
    decreases |plans|
  {
    if plans != [] {
      var p := plans[0];
      var kv' := DispatchSpec(kv, job.id, step, p.worker.id, p.tasks, w.reachable(p.worker.id), w.forked);
      DispatchFrame(kv, job.id, step, p.worker.id, p.tasks, w.reachable(p.worker.id), w.forked, k);
      DispatchAllFrame(kv', job, step, plans[1..], w, k);
    }
  }

  /**
   `start(job, step)`: with no plan the step is done, and its done record lists
   the started-record names; any plan, even an empty one, is dispatched entry
   by entry.
   */
  function StartSpec(kv: Store, job: Job, step: string, w: World): Store
  {
    match w.plans(job.id, step)
    case None => kv[DoneKey(job.id, step) := DoneV(Listing(kv, StartedPrefix(job.id, step)))]
    case Some(plans) => DispatchAll(kv, job, step, plans, w)
  }

  lemma DoneUntouched(jobId: string, step: string, other: string)
    ensures Untouched(DoneKey(jobId, step), jobId, other)
  {
    OutsideNamespace(DoneKey(jobId, step), "worker/dispatching/", 0);
    OutsideNamespace(DoneKey(jobId, step), StartedPrefix(jobId, other), 5);
  }

  /**
   `start` writes the done record of the step exactly when the planner has no
   plan, holding the names of the started records; otherwise that key keeps
   whatever it held.
   */
  lemma StartDoneRecord(kv: Store, job: Job, step: string, w: World)
    ensures var r := StartSpec(kv, job, step, w);
      var done := DoneKey(job.id, step);
      && (w.plans(job.id, step).None? ==>
            done in r && r[done] == DoneV(Listing(kv, StartedPrefix(job.id, step))))
      && (w.plans(job.id, step).Some? ==>
            (done in r <==> done in kv) && (done in kv ==> r[done] == kv[done]))
  {
    if w.plans(job.id, step).Some? {
      DoneUntouched(job.id, step, step);
      DispatchAllFrame(kv, job, step, w.plans(job.id, step).value, w, DoneKey(job.id, step));
    }
  }

  /** Neither `start` nor `dispatch` touches the submitted job records. */
  lemma {:induction false} StartKeepsSubmitted(kv: Store, job: Job, step: string, w: World, id: string)
    ensures var r := StartSpec(kv, job, step, w);
      (SubmittedKey(id) in r <==> SubmittedKey(id) in kv)
      && (SubmittedKey(id) in kv ==> r[SubmittedKey(id)] == kv[SubmittedKey(id)])
  {
    var k := SubmittedKey(id);
    OutsideNamespace(k, "worker/dispatching/", 0);
    OutsideNamespace(k, StartedPrefix(job.id, step), 0);
    DifferAt(k, DoneKey(job.id, step), 0);
    if w.plans(job.id, step).Some? {
      DispatchAllFrame(kv, job, step, w.plans(job.id, step).value, w, k);
    }
  }

  // ---------------------------------------------------------------------
  // update

  /** The submitted job stored under an id; a missing or non-job record reads as an empty job created now. */
  function JobAt(kv: Store, id: string, now: int): Job
  {
    if SubmittedKey(id) in kv && kv[SubmittedKey(id)].JobV? then kv[SubmittedKey(id)].job else DefaultJob(now)
  }

  /**
   The steps of a job that have no done record and whose dependencies all have
   one, in listing order.
   `None` when a `deps` call overflows the stack, which throws out of the filter.
   */
  function Runnable(job: Job, done: map<string, Value>, steps: seq<string>, depth: nat): Option<seq<string>>
  {
    if steps == [] then Some([])
    else if steps[0] in done then Runnable(job, done, steps[1..], depth)
    else match Deps(job, steps[0], depth)
      case None => None
      case Some(deps) =>
        match Runnable(job, done, steps[1..], depth)
        case None => None
        case Some(rest) => if forall d :: d in deps ==> d in done then Some([steps[0]] + rest) else Some(rest)
  }

  /**
   When the filter finishes, it keeps exactly the steps without a done record:
   the dependency test is vacuous because `deps` always answers `[]`.
   */
  lemma {:induction false} RunnableExact(job: Job, done: map<string, Value>, steps: seq<string>, depth: nat, s: string)
    requires Runnable(job, done, steps, depth).Some?
    ensures s in Runnable(job, done, steps, depth).value <==> s in steps && s !in done
  {
    if steps != [] {
      RunnableExact(job, done, steps[1..], depth, s);
      if steps[0] !in done {
        DepsAlwaysEmpty(job, steps[0], {}, depth);
      }
      assert s in steps <==> s == steps[0] || s in steps[1..] by {
        assert steps == [steps[0]] + steps[1..];
      }
    }
  }

  /** The filter throws exactly when some step without a done record has a `deps` call that overflows. */
  lemma {:induction false} RunnableThrows(job: Job, done: map<string, Value>, steps: seq<string>, depth: nat)
    ensures Runnable(job, done, steps, depth).None? <==>
      exists i :: 0 <= i < |steps| && steps[i] !in done && Deps(job, steps[i], depth).None?
  {
    if steps != [] {
      RunnableThrows(job, done, steps[1..], depth);
      if exists i :: 0 <= i < |steps[1..]| && steps[1..][i] !in done && Deps(job, steps[1..][i], depth).None? {
        var i :| 0 <= i < |steps[1..]| && steps[1..][i] !in done && Deps(job, steps[1..][i], depth).None?;
        assert steps[i + 1] == steps[1..][i];
      }
      if exists i :: 0 <= i < |steps| && steps[i] !in done && Deps(job, steps[i], depth).None? {
        var i :| 0 <= i < |steps| && steps[i] !in done && Deps(job, steps[i], depth).None?;
        if i > 0 {
          assert steps[1..][i - 1] == steps[i];
        }
      }
    }
  }

  /** `Promise.all(steps.map(step => start(job, step)))`, one start after another. */
  function StartAll(kv: Store, job: Job, steps: seq<string>, w: World): Store
    decreases |steps|
  {
    if steps == [] then kv else StartAll(StartSpec(kv, job, steps[0], w), job, steps[1..], w)
  }

  lemma {:induction false} StartAllKeepsSubmitted(kv: Store, job: Job, steps: seq<string>, w: World, id: string)
    ensures var r := StartAll(kv, job, steps, w);
      (SubmittedKey(id) in r <==> SubmittedKey(id) in kv)
      && (SubmittedKey(id) in kv ==> r[SubmittedKey(id)] == kv[SubmittedKey(id)])
    decreases |steps|
  {
    if steps != [] {
      StartKeepsSubmitted(kv, job, steps[0], w, id);
      StartAllKeepsSubmitted(StartSpec(kv, job, steps[0], w), job, steps[1..], w, id);
    }
  }

  /** The steps `update(id)` looks at, in the order the model lists them. */
  function StepNames(job: Job): seq<string>
  {
    SortedKeys(job.steps.Keys)
  }

  /**
   `update(id)`: the new store and whether the call returned (`false` when it
   threw). Runnable steps are started; with none, the submitted record goes.
   */
  function UpdateSpec(kv: Store, id: string, w: World): (Store, bool)
  {
    var job := JobAt(kv, id, w.now);
    match Runnable(job, Under(kv, DonePrefix(id)), StepNames(job), w.depth)
    case None => (kv, false)
    case Some(steps) =>
      if steps == [] then (kv - {SubmittedKey(id)}, true)
      else (StartAll(kv, job, steps, w), true)
  }

  /**
   A returning `update(id)` deletes `job/submited/{id}` exactly when no step of
   the job lacks a done record, and otherwise leaves it in place.
   */
  lemma UpdateDeletesJob(kv: Store, id: string, w: World)
    requires UpdateSpec(kv, id, w).1
    ensures var job := JobAt(kv, id, w.now);
      var r := UpdateSpec(kv, id, w).0;
      && ((forall s :: s in job.steps ==> s in Under(kv, DonePrefix(id))) ==> SubmittedKey(id) !in r)
      && ((exists s :: s in job.steps && s !in Under(kv, DonePrefix(id))) ==>
            (SubmittedKey(id) in r <==> SubmittedKey(id) in kv))
  {
    var job := JobAt(kv, id, w.now);
    var done := Under(kv, DonePrefix(id));
    var names := StepNames(job);
    var steps := Runnable(job, done, names, w.depth).value;
    if exists s :: s in job.steps && s !in done {
      var s :| s in job.steps && s !in done;
      SortedKeysComplete(job.steps.Keys, s);
      RunnableExact(job, done, names, w.depth, s);
      StartAllKeepsSubmitted(kv, job, steps, w, id);
    } else if steps != [] {
      RunnableExact(job, done, names, w.depth, steps[0]);
    }
  }

  /** A returning `update(id)` starts exactly the steps of the job without a done record. */
  lemma UpdateStartsUndone(kv: Store, id: string, w: World, s: string)
    requires UpdateSpec(kv, id, w).1
    ensures var job := JobAt(kv, id, w.now);
      var started := Runnable(job, Under(kv, DonePrefix(id)), StepNames(job), w.depth).value;
      s in started <==> s in job.steps && s !in Under(kv, DonePrefix(id))
  {
    var job := JobAt(kv, id, w.now);
    RunnableExact(job, Under(kv, DonePrefix(id)), StepNames(job), w.depth, s);
    if s in job.steps {
      SortedKeysComplete(job.steps.Keys, s);
    }
  }

  // ---------------------------------------------------------------------
  // check

  /**
   One round of `check` for job `id`: acquire `job/checking/{id}` (a present
   key makes the acquire fail and the job is skipped), update, release. A
   throwing update is caught, and the release is never reached.
   */
  function CheckOne(kv: Store, id: string, w: World): Store
  {
    var lock := CheckLock(id);
    if lock in kv then kv
    else
      var (kv', ok) := UpdateSpec(kv[lock := LockV], id, w);
      if ok then kv' - {lock} else kv'
  }

  /** The `for` loop of `check` from job `ids[0]` on; each job's outcome leaves the loop going. */
  function CheckAll(kv: Store, ids: seq<string>, w: World): Store
    decreases |ids|
  {
    if ids == [] then kv else CheckAll(CheckOne(kv, ids[0], w), ids[1..], w)
  }

  /** A job whose update throws keeps its checking lock, so every later `check` skips it. */
  lemma FailedJobStaysLocked(kv: Store, id: string, w: World)
    requires CheckLock(id) !in kv
    requires !UpdateSpec(kv[CheckLock(id) := LockV], id, w).1
    ensures CheckLock(id) in CheckOne(kv, id, w)
    ensures CheckOne(CheckOne(kv, id, w), id, w) == CheckOne(kv, id, w)
  {
  }

  /** A job whose `deps` overflows on a step without a done record makes its update throw. */
  lemma OverflowFailsUpdate(kv: Store, id: string, w: World, s: string)
    requires s in JobAt(kv, id, w.now).steps && s !in Under(kv, DonePrefix(id))
    requires Deps(JobAt(kv, id, w.now), s, w.depth).None?
    ensures !UpdateSpec(kv, id, w).1
  {
    var job := JobAt(kv, id, w.now);
    var names := StepNames(job);
    SortedKeysComplete(job.steps.Keys, s);
    var i :| 0 <= i < |names| && names[i] == s;
    RunnableThrows(job, Under(kv, DonePrefix(id)), names, w.depth);
  }

  // ---------------------------------------------------------------------
  // The scheduler.

  /** A scheduler node over its view of the store. */
  class Node {
    var kv: Store

    constructor (kv0: Store)
      ensures kv == kv0
    {
      kv := kv0;
    }

    /** Sends one worker its share of a plan, recording the tasks it started and releasing its lock. */
    method Dispatch(job: Job, step: string, worker: Worker, tasks: map<string, Task>, w: World)
      modifies this
      ensures kv == DispatchSpec(old(kv), job.id, step, worker.id, tasks, w.reachable(worker.id), w.forked)
    {
      var lock := DispatchLock(worker.id);
      if lock in kv {
        return;
      }
      kv := kv[lock := LockV];
      if !w.reachable(worker.id) {
        return;
      }
      var started := Accepted(tasks, w.forked);
      PutStarted(StartedPrefix(job.id, step), tasks, started);
      kv := kv - {lock};
    }

    /** Writes the record of every started task under the step's started namespace, one put after another. */
    method PutStarted(prefix: string, tasks: map<string, Task>, started: seq<string>)
      requires forall i :: 0 <= i < |started| ==> started[i] in tasks
      modifies this
      ensures kv == PutEach(old(kv), prefix, tasks, started)
    {
      var i := 0;
      while i < |started|
        invariant 0 <= i <= |started|
        invariant PutEach(kv, prefix, tasks, started[i..]) == PutEach(old(kv), prefix, tasks, started)
      {
        assert started[i..][1..] == started[i + 1..];
        kv := kv[prefix + started[i] := TaskV(tasks[started[i]])];
        i := i + 1;
      }
    }

    /** Plans a step and dispatches its tasks, writing the done record when the step has finished. */
    method Start(job: Job, step: string, w: World)
      modifies this
      ensures kv == StartSpec(old(kv), job, step, w)
    {
      var plans := w.plans(job.id, step);
      if plans.None? {
        kv := kv[DoneKey(job.id, step) := DoneV(Listing(kv, StartedPrefix(job.id, step)))];
        return;
      }
      var ps := plans.value;
      ghost var before := kv;
      var i := 0;
      while i < |ps|
        invariant 0 <= i <= |ps|
        invariant DispatchAll(kv, job, step, ps[i..], w) == DispatchAll(before, job, step, ps, w)
      {
        assert ps[i..][1..] == ps[i + 1..];
        Dispatch(job, step, ps[i].worker, ps[i].tasks, w);
        i := i + 1;
      }
    }

    /** `update(id)`; `ok` is false when the call throws. */
    method Update(id: string, w: World) returns (ok: bool)
      modifies this
      ensures (kv, ok) == UpdateSpec(old(kv), id, w)
    {
      var job := JobAt(kv, id, w.now);
      var runnable := Runnable(job, Under(kv, DonePrefix(id)), StepNames(job), w.depth);
      if runnable.None? {
        return false;
      }
      var steps := runnable.value;
      if steps == [] {
        kv := kv - {SubmittedKey(id)};
        return true;
      }
      ghost var before := kv;
      var i := 0;
      while i < |steps|
        invariant 0 <= i <= |steps|
        invariant StartAll(kv, job, steps[i..], w) == StartAll(before, job, steps, w)
      {
        assert steps[i..][1..] == steps[i + 1..];
        Start(job, steps[i], w);
        i := i + 1;
      }
      return true;
    }

    /** `check()`: every submitted job, in listing order. */
    method Check(w: World)
      modifies this
      ensures kv == CheckAll(old(kv), Listing(old(kv), SubmittedPrefix()), w)
    {
      var jobs := Listing(kv, SubmittedPrefix());
      ghost var before := kv;
      var i := 0;
      while i < |jobs|
        invariant 0 <= i <= |jobs|
        invariant CheckAll(kv, jobs[i..], w) == CheckAll(before, jobs, w)
      {
        assert jobs[i..][1..] == jobs[i + 1..];
        CheckJob(jobs[i], w);
        i := i + 1;
      }
    }

    /** One round of the loop of `check`: lock the job, update it, release the lock on success. */
    method CheckJob(id: string, w: World)
      modifies this
      ensures kv == CheckOne(old(kv), id, w)
    {
      var lock := CheckLock(id);
      if lock !in kv {
        kv := kv[lock := LockV];
        var ok := Update(id, w);
        if ok {
          kv := kv - {lock};
        }
      }
    }

    /** `submit(job)`: the job keeps its id, or gets the random one; it is stored under that id. */
    method Submit(job: Job, randomId: string) returns (id: string)
      modifies this
      ensures id == (if job.id != "" then job.id else randomId)
      ensures kv == old(kv)[SubmittedKey(id) := JobV(job.(id := id))]
    {
      id := if job.id != "" then job.id else randomId;
      kv := kv[SubmittedKey(id) := JobV(job.(id := id))];
    }
  }

  /** A submitted job is listed by the next `check`, and `update` reads it back with its id. */
  lemma SubmitThenListed(kv: Store, job: Job, id: string, now: int)
    ensures var r := kv[SubmittedKey(id) := JobV(job.(id := id))];
      id in Listing(r, SubmittedPrefix()) && JobAt(r, id, now) == job.(id := id)
  {
  }
}
