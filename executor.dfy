/**
 The executor side of src/service.ts (`updateExecutor`): refresh the usage
 curve of the running task, and once the task has finished cut the curve at
 the finish time, then publish the record under two keys.
 */
module Service {
  import opened Prelude
  import opened Resources
  import opened Usages
  import opened Models
  import opened Kv

  /** The fields an update names: `{ created }` at start, `{ finished, code }` at exit. */
  datatype Patch = Patch(created: Option<int>, finished: Option<int>, code: Option<int>)

  /** `Object.assign(startExecutor, { usage }, update)`: the new usage, then the update's fields on top. */
  function Assign(r: Running, usage: map<int, Resource>, p: Patch): (m: Running)
    ensures m.usage == Some(usage)
    ensures m.task.created == (if p.created.Some? then p.created.value else r.task.created)
    ensures m.task.finished == (if p.finished.Some? then p.finished.value else r.task.finished)
    ensures m.code == (if p.code.Some? then p.code else r.code)
    ensures m.task.job == r.task.job && m.task.worker == r.task.worker && m.task.step == r.task.step
  {
    var t := r.task;
    var t' := t.(created := if p.created.Some? then p.created.value else t.created,
                 finished := if p.finished.Some? then p.finished.value else t.finished);
    Running(t', Some(usage), if p.code.Some? then p.code else r.code)
  }

  /** The ticks of the previous curve that lie after the finish: `parseInt(time) + created > finished`. */
  function LateTicks(prior: map<int, Resource>, created: int, finished: int): set<int>
  {
    set t | t in prior && t + created > finished
  }

  /**
   The usage curve `updateExecutor` leaves behind, or `None` when it throws
   (`Object.keys` of a missing previous curve). `prior` is the curve before the
   call, `created` the task's creation time before the call, `latest` the newly
   computed curve and `finished` the finish time after the update. When a
   previous tick lies past the finish, the sample of `latest` at `finished` is
   stored under the key `finished` (an undefined sample leaves that key out)
   and the late ticks are deleted from `latest`.
   */
  function UsageAfter(prior: Option<map<int, Resource>>, created: int, latest: map<int, Resource>,
                      finished: int): Option<map<int, Resource>>
  {
    if finished == 0 then Some(latest)
    else if prior.None? then None
    else
      var late := LateTicks(prior.value, created, finished);
      var sample := GetAt(Usage(0, latest), finished);
      if late == {} then Some(latest)
      else if sample.TypeError? then None
      else Some(Cut(latest, finished, sample, late))
  }

  /** `meta.usage[finished] = sample`, then `delete meta.usage[tick]` for every late tick. */
  function Cut(latest: map<int, Resource>, finished: int, sample: Sample, late: set<int>): map<int, Resource>
  {
    (if sample.Sampled? then latest[finished := sample.r] else latest - {finished}) - late
  }

  /** Before the task has finished the curve is simply replaced by the latest one. */
  lemma UnfinishedTakesFresh(prior: Option<map<int, Resource>>, created: int, latest: map<int, Resource>)
    ensures UsageAfter(prior, created, latest, 0) == Some(latest)
  {
  }

  /** The call throws exactly when the task has finished and there was no previous curve. */
  lemma UsageAfterThrows(prior: Option<map<int, Resource>>, created: int, latest: map<int, Resource>, finished: int)
    ensures UsageAfter(prior, created, latest, finished).None? <==> finished != 0 && prior.None?
  {
    AnchoredNeverThrows(Usage(0, latest), finished);
  }

  /** With no previous tick past the finish, nothing is cut and no sample is added. */
  lemma NothingLateKeepsFresh(prior: map<int, Resource>, created: int, latest: map<int, Resource>, finished: int)
    requires forall t :: t in prior ==> t + created <= finished
    ensures UsageAfter(Some(prior), created, latest, finished) == Some(latest)
  {
    assert LateTicks(prior, created, finished) == {};
  }

  /**
   After the finish, a tick survives exactly when it did not lie past the
   finish in the previous curve, and it is either a tick of the latest curve
   other than `finished` (with its latest sample) or `finished` itself holding
   the interpolated sample. A latest tick past the finish that the previous
   curve did not have survives the cut.
   */
  lemma {:induction false} FinishedCut(prior: map<int, Resource>, created: int, latest: map<int, Resource>,
                                       finished: int, t: int)
    requires finished != 0
    requires exists p :: p in prior && p + created > finished
    ensures UsageAfter(Some(prior), created, latest, finished).Some?
    ensures var u := UsageAfter(Some(prior), created, latest, finished).value;
      var late := t in prior && t + created > finished;
      && (t != finished ==> (t in u <==> t in latest && !late))
      && (t != finished && t in u ==> u[t] == latest[t])
      && (t == finished ==> (t in u <==> !late && GetAt(Usage(0, latest), finished).Sampled?))
      && (t == finished && t in u ==> u[t] == GetAt(Usage(0, latest), finished).r)
  {
    var p :| p in prior && p + created > finished;
    var late := LateTicks(prior, created, finished);
    assert p in late;
    var sample := GetAt(Usage(0, latest), finished);
    AnchoredNeverThrows(Usage(0, latest), finished);
    assert UsageAfter(Some(prior), created, latest, finished) == Some(Cut(latest, finished, sample, late));
    assert t in late <==> t in prior && t + created > finished;
  }

  /** `${task.worker}` and `${task.job}`: a template literal renders a plain object as `[object Object]`. */
  function RenderWorker(w: Worker): string { "[object Object]" }
  function RenderJob(j: Job): string { "[object Object]" }

  /** The key under which the executor publishes its record in the running namespace, after the rendered worker. */
  function RunningKey(t: Task, id: string): string
  {
    "task/running/" + RenderWorker(t.worker) + "/" + id
  }

  /** The key under which the executor publishes its record in the executing namespace, after the rendered job. */
  function ExecutingKey(t: Task, id: string): string
  {
    "task/executing/" + RenderJob(t.job) + "/" + id
  }

  /**
   Both published keys depend on the executor id alone: every executor of every
   worker and job writes under `task/running/[object Object]/` and
   `task/executing/[object Object]/`, never under its worker's or job's own
   namespace.
   */
  lemma RecordKeysIgnoreTask(t1: Task, t2: Task, id: string)
    ensures RunningKey(t1, id) == RunningKey(t2, id)
    ensures ExecutingKey(t1, id) == ExecutingKey(t2, id)
    ensures RunningKey(t1, id) != ExecutingKey(t2, id)
  {
    DifferAt(RunningKey(t1, id), ExecutingKey(t2, id), 5);
  }

  /** The ticks named in a list. */
  function TickSet(ticks: seq<int>): set<int>
  {
    set t | t in ticks
  }

  /** Deletes each listed tick from the usage curve, one after another. */
  method DeleteTicks(usage: map<int, Resource>, ticks: seq<int>) returns (r: map<int, Resource>)
    ensures r == usage - TickSet(ticks)
  {
    r := usage;
    var i := 0;
    while i < |ticks|
      invariant 0 <= i <= |ticks|
      invariant r == usage - TickSet(ticks[..i])
    {
      assert TickSet(ticks[..i + 1]) == TickSet(ticks[..i]) + {ticks[i]} by {
        assert ticks[..i + 1] == ticks[..i] + [ticks[i]];
      }
      r := r - {ticks[i]};
      i := i + 1;
    }
    assert ticks[..i] == ticks;
  }

  lemma SortedIntsExact(s: set<int>)
    ensures TickSet(SortedInts(s)) == s
  {
    forall t | t in s ensures t in SortedInts(s) {
      SortedIntsComplete(s, t);
    }
  }

  /** An executor process: its id, the `startExecutor` record it mutates, and its view of the store. */
  class Executor {
    const id: string
    var record: Running
    var kv: Store

    constructor (id: string, record: Running, kv: Store)
      ensures this.id == id && this.record == record && this.kv == kv
    {
      this.id := id;
      this.record := record;
      this.kv := kv;
    }

    /**
     `updateExecutor(lease, update)` with the freshly computed step usage
     `latest`. The record is merged before anything can throw; on success the
     cut curve is stored in it and the same record is put under both keys,
     which are built from the task as it was before the call.
     */
    method UpdateExecutor(latest: map<int, Resource>, patch: Patch) returns (ok: bool)
      modifies this
      ensures var merged := Assign(old(record), latest, patch);
        var after := UsageAfter(old(record).usage, old(record).task.created, latest, merged.task.finished);
        && ok == after.Some?
        && record == (if ok then merged.(usage := after) else merged)
        && (ok ==> kv == old(kv)[RunningKey(old(record).task, id) := RecordV(record)]
                                [ExecutingKey(old(record).task, id) := RecordV(record)])
        && (!ok ==> kv == old(kv))
    {
      var task := record.task;
      var prior := record.usage;
      record := Assign(record, latest, patch);
      var finished := record.task.finished;
      if finished != 0 {
        if prior.None? {
          return false;
        }
        var late := LateTicks(prior.value, task.created, finished);
        var ticks := SortedInts(late);
        if |ticks| > 0 {
          var sample := GetAt(Usage(0, latest), finished);
          if sample.TypeError? {
            return false;
          }
          var usage := if sample.Sampled? then latest[finished := sample.r] else latest - {finished};
          usage := DeleteTicks(usage, ticks);
          SortedIntsExact(late);
          assert usage == Cut(latest, finished, sample, late);
          record := record.(usage := Some(usage));
        } else {
          assert late == {};
        }
      }
      kv := kv[RunningKey(task, id) := RecordV(record)];
      kv := kv[ExecutingKey(task, id) := RecordV(record)];
      return true;
    }
  }
}
