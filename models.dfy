/**
 The records of src/models.ts (`Job`, `Step`, `Task`, `Worker`), the dependency
 lookup `Job.deps` and the task planner `Step.plan`. The clock and the template
 formatter are parameters.
 */
module Models {
  import opened Prelude
  import opened Utils
  import opened Resources

  type Env = map<string, string>

  /** A step description with `new Step(...)`'s defaults filled in: a missing `deps` is `[]`, a missing `count` is 1. */
  datatype Step = Step(deps: seq<string>, tags: seq<string>, count: int, cmd: string, cwd: string, env: Env)

  function DefaultStep(): Step
  {
    Step([], [], 1, "", "", map[])
  }

  /** A job: its id, working directory, creation time and named steps. */
  datatype Job = Job(id: string, cwd: string, created: int, steps: map<string, Step>)

  /** `new Job(null)`, what a missing record decodes to (the clock reading is a parameter). */
  function DefaultJob(now: int): Job
  {
    Job("", "", now, map[])
  }

  /** A worker heartbeat: its id, last update time and free resources. */
  datatype Worker = Worker(id: string, updated: int, resource: Resource)

  function DefaultWorker(now: int): Worker
  {
    Worker("", now, map[])
  }

  /** One task of a step, as the planner builds it. */
  datatype Task = Task(index: int, total: int, created: int, finished: int,
                       cmd: string, cwd: string, env: Env,
                       job: Job, step: string, worker: Worker)

  /**
   The record an executor keeps in `startExecutor` and publishes: the task it
   was started with, its usage curve by relative tick (absent until the first
   update) and its exit code once it has one.
   */
  datatype Running = Running(task: Task, usage: Option<map<int, Resource>>, code: Option<int>)

  // ---------------------------------------------------------------------
  // Job.deps

  /** The dependencies a step declares; an unknown step declares none. */
  function DirectDeps(job: Job, step: string): seq<string>
  {
    if step in job.steps then job.steps[step].deps else []
  }

  /** The dependencies not yet recorded as visited in `out`, in their declared order. */
  function Unvisited(deps: seq<string>, out: set<string>): (r: seq<string>)
    ensures forall d :: d in r <==> d in deps && d !in out
  {
    if deps == [] then []
    else if deps[0] in out then Unvisited(deps[1..], out)
    else [deps[0]] + Unvisited(deps[1..], out)
  }

  /**
   `job.deps(step, out)` with `depth` stack frames left. Every call recurses
   into the direct dependencies not named in `out`, and `out` is never
   written, so a call that returns gives back the keys of the `out` it was
   handed. `None` is the RangeError thrown when the stack runs out.
   */
  function Visit(job: Job, step: string, out: set<string>, depth: nat): Option<set<string>>
    decreases depth, 0
  {
    if depth == 0 then None
    else if VisitEach(job, Unvisited(DirectDeps(job, step), out), out, depth - 1) then Some(out)
    else None
  }

  /** The `forEach` over the unvisited dependencies: `true` when every recursive call returned. */
  function VisitEach(job: Job, deps: seq<string>, out: set<string>, depth: nat): bool
    decreases depth, 1, |deps|
  {
    deps == [] || (Visit(job, deps[0], out, depth).Some? && VisitEach(job, deps[1..], out, depth))
  }

  /** `job.deps(step)`, called as the scheduler calls it, with a fresh `out`. */
  function Deps(job: Job, step: string, depth: nat): Option<set<string>>
  {
    Visit(job, step, {}, depth)
  }

  /**
   Whatever the dependencies, a call that returns gives back the keys of the
   `out` it was handed; so the scheduler's call `job.deps(step)` returns the
   empty list whenever it returns.
   */
  lemma DepsAlwaysEmpty(job: Job, step: string, out: set<string>, depth: nat)
    ensures Visit(job, step, out, depth) == None || Visit(job, step, out, depth) == Some(out)
    ensures Deps(job, step, depth).Some? ==> Deps(job, step, depth).value == {}
  {
  }

  /**
   `next` picks, for each step of `cycle`, a direct dependency that is again
   in `cycle` and that `out` does not name: a dependency cycle.
   */
  predicate Cyclic(job: Job, cycle: set<string>, next: string -> string, out: set<string>)
  {
    forall s {:trigger next(s)} :: s in cycle ==> next(s) in cycle && next(s) in DirectDeps(job, s) && next(s) !in out
  }

  /** From a step on such a cycle the recursion never returns: it exhausts every stack. */
  lemma {:induction false} CycleOverflows(job: Job, cycle: set<string>, next: string -> string, out: set<string>,
                                          step: string, depth: nat)
    requires Cyclic(job, cycle, next, out) && step in cycle
    ensures Visit(job, step, out, depth) == None
    decreases depth, 0
  {
    if depth > 0 {
      var pending := Unvisited(DirectDeps(job, step), out);
      assert next(step) in pending;
      CycleOverflowsEach(job, cycle, next, out, pending, next(step), depth - 1);
    }
  }

  lemma {:induction false} CycleOverflowsEach(job: Job, cycle: set<string>, next: string -> string, out: set<string>,
                                              deps: seq<string>, d: string, depth: nat)
    requires Cyclic(job, cycle, next, out) && d in cycle && d in deps
    ensures !VisitEach(job, deps, out, depth)
    decreases depth, 1, |deps|
  {
    if deps[0] == d {
      CycleOverflows(job, cycle, next, out, d, depth);
    } else {
      assert d in deps[1..];
      CycleOverflowsEach(job, cycle, next, out, deps[1..], d, depth);
    }
  }

  /** `rank` strictly decreases along every dependency of a ranked step. */
  predicate Ranked(job: Job, rank: map<string, nat>)
  {
    forall s :: s in rank ==> forall d :: d in DirectDeps(job, s) ==> d in rank && rank[d] < rank[s]
  }

  /**
   Without a cycle the call returns, given one more stack frame than the
   longest dependency chain below `step`.
   */
  lemma {:induction false} AcyclicReturns(job: Job, rank: map<string, nat>, out: set<string>, step: string, depth: nat)
    requires Ranked(job, rank) && step in rank && depth > rank[step]
    ensures Visit(job, step, out, depth) == Some(out)
    decreases depth, 0
  {
    AcyclicReturnsEach(job, rank, out, Unvisited(DirectDeps(job, step), out), rank[step], depth - 1);
  }

  lemma {:induction false} AcyclicReturnsEach(job: Job, rank: map<string, nat>, out: set<string>,
                                              deps: seq<string>, bound: nat, depth: nat)
    requires Ranked(job, rank) && depth >= bound
    requires forall d :: d in deps ==> d in rank && rank[d] < bound
    ensures VisitEach(job, deps, out, depth)
    decreases depth, 1, |deps|
  {
    if deps != [] {
      AcyclicReturns(job, rank, out, deps[0], depth);
      AcyclicReturnsEach(job, rank, out, deps[1..], bound, depth);
    }
  }

  /** The two-step chain of the sample job: step B depends on A. */
  function ChainJob(): Job
  {
    Job("chain", "", 0, map["A" := DefaultStep(), "B" := DefaultStep().(deps := ["A"])])
  }

  /** Step B reports no dependencies at all, although it depends on A. */
  lemma ChainReportsNothing()
    ensures Deps(ChainJob(), "B", 2) == Some({})
    ensures "A" in DirectDeps(ChainJob(), "B")
  {
    var rank := map["A" := 0, "B" := 1];
    AcyclicReturns(ChainJob(), rank, {}, "B", 2);
  }

  /** A step that lists itself as a dependency. */
  function SelfLoopJob(): Job
  {
    Job("loop", "", 0, map["A" := DefaultStep().(deps := ["A"])])
  }

  /** Its `deps` call overflows whatever the stack size. */
  lemma SelfLoopOverflows(depth: nat)
    ensures Deps(SelfLoopJob(), "A", depth).None?
  {
    CycleOverflows(SelfLoopJob(), {"A"}, (s: string) => "A", {}, "A", depth);
  }

  // ---------------------------------------------------------------------
  // Step.plan

  /** One entry of a plan: a worker and the tasks it is asked to start, by id. */
  datatype Assignment = Assignment(worker: Worker, tasks: map<string, Task>)

  /** The id of a planned task: job, step, worker and task index, each after its one-letter tag. */
  function TaskId(jobId: string, step: string, workerId: string, index: nat): string
  {
    "j" + jobId + "-s" + step + "-w" + workerId + "-t" + NatToString(index)
  }

  /**
   The task `plan` builds for the task at `index`: `format` fills the command,
   the directory and every environment value from `{ job, index }`.
   */
  function MakeTask(spec: Step, job: Job, step: string, worker: Worker, index: nat, now: int,
                    format: (string, Job, int) -> string): Task
  {
    Task(index, spec.count, now, 0,
         format(spec.cmd, job, index), format(spec.cwd, job, index),
         MapMap(spec.env, (v: string, _: string) => format(v, job, index)),
         job, step, worker)
  }

  /** The assignment at position `i`: `workers[i]` with the single task of index `start + i`. */
  function MakeAssignment(spec: Step, job: Job, step: string, worker: Worker, index: nat, now: int,
                          format: (string, Job, int) -> string): Assignment
  {
    Assignment(worker, map[TaskId(job.id, step, worker.id, index) :=
                           MakeTask(spec, job, step, worker, index, now, format)])
  }

  /**
   `step.plan(job, step, deps, started, workers)`: with `rest = count - |started|`,
   `None` (the step is done) when nothing is left, `Some([])` (wait) when fewer
   workers than remaining tasks are available, else one assignment per
   remaining task.
   */
  function Plan(spec: Step, job: Job, step: string, started: map<string, Task>, workers: seq<Worker>,
                now: int, format: (string, Job, int) -> string): Option<seq<Assignment>>
  {
    var rest := spec.count - |started|;
    if rest > 0 && |workers| >= rest then
      Some(seq(rest, i requires 0 <= i < rest =>
        MakeAssignment(spec, job, step, workers[i], |started| + i, now, format)))
    else if rest > 0 then Some([])
    else None
  }

  /**
   The three-way decision: done exactly when every one of the `count` tasks
   has a started record (whatever became of it), wait exactly when some are
   left but too few workers, otherwise exactly `rest` assignments.
   */
  lemma PlanDecision(spec: Step, job: Job, step: string, started: map<string, Task>, workers: seq<Worker>,
                     now: int, format: (string, Job, int) -> string)
    ensures var r := Plan(spec, job, step, started, workers, now, format);
      && (r.None? <==> |started| >= spec.count)
      && (r == Some([]) <==> |started| < spec.count && |workers| < spec.count - |started|)
      && (r.Some? && r.value != [] ==> |r.value| == spec.count - |started|)
  {
  }

  /**
   In a plan, entry `i` goes to `workers[i]` with exactly one task, whose
   index is `|started| + i` and whose id names the job, the step, that worker
   and that index; the indices run up to `count - 1`.
   */
  lemma PlanShape(spec: Step, job: Job, step: string, started: map<string, Task>, workers: seq<Worker>,
                  now: int, format: (string, Job, int) -> string, i: int)
    requires Plan(spec, job, step, started, workers, now, format).Some?
    requires 0 <= i < |Plan(spec, job, step, started, workers, now, format).value|
    ensures var a := Plan(spec, job, step, started, workers, now, format).value[i];
      && a.worker == workers[i]
      && a.tasks.Keys == {TaskId(job.id, step, workers[i].id, |started| + i)}
      && a.tasks[TaskId(job.id, step, workers[i].id, |started| + i)].index == |started| + i
      && a.tasks[TaskId(job.id, step, workers[i].id, |started| + i)].total == spec.count
      && |started| + i < spec.count
  {
  }

  /** Only how many tasks were started matters, not which ones or how they ended. */
  lemma PlanCountsStarted(spec: Step, job: Job, step: string, s1: map<string, Task>, s2: map<string, Task>,
                          workers: seq<Worker>, now: int, format: (string, Job, int) -> string)
    requires |s1| == |s2|
    ensures Plan(spec, job, step, s1, workers, now, format) == Plan(spec, job, step, s2, workers, now, format)
  {
  }

  /** In `p + "-t" + d` with `d` all digits, position `|p|` holds the last `-`. */
  lemma LastDash(p: string, d: string)
    requires forall i :: 0 <= i < |d| ==> IsDigit(d[i])
    ensures (p + "-t" + d)[|p|] == '-'
    ensures forall i :: |p| < i < |p + "-t" + d| ==> (p + "-t" + d)[i] != '-'
  {
    var s := p + "-t" + d;
    forall i | |p| < i < |s| ensures s[i] != '-' {
      if i > |p| + 1 {
        assert s[i] == d[i - |p| - 2];
      }
    }
  }

  /** After the last `-t` of a task id come only the digits of the index. */
  lemma {:induction false} DigitSuffixUnique(p1: string, d1: string, p2: string, d2: string)
    requires p1 + "-t" + d1 == p2 + "-t" + d2
    requires forall i :: 0 <= i < |d1| ==> IsDigit(d1[i])
    requires forall i :: 0 <= i < |d2| ==> IsDigit(d2[i])
    ensures d1 == d2
  {
    var s := p1 + "-t" + d1;
    LastDash(p1, d1);
    LastDash(p2, d2);
    assert |p1| == |p2|;
    assert d1 == s[|p1| + 2..];
    assert d2 == (p2 + "-t" + d2)[|p2| + 2..];
  }

  /** Task ids built for different indices differ, whatever the job, step and worker ids. */
  lemma TaskIdsDiffer(j1: string, s1: string, w1: string, i1: nat, j2: string, s2: string, w2: string, i2: nat)
    requires i1 != i2
    ensures TaskId(j1, s1, w1, i1) != TaskId(j2, s2, w2, i2)
  {
    if TaskId(j1, s1, w1, i1) == TaskId(j2, s2, w2, i2) {
      DigitSuffixUnique("j" + j1 + "-s" + s1 + "-w" + w1, NatToString(i1),
                        "j" + j2 + "-s" + s2 + "-w" + w2, NatToString(i2));
      NatToStringInjective(i1, i2);
    }
  }

  /** The ids of the tasks of one plan are pairwise distinct. */
  lemma PlanIdsDistinct(spec: Step, job: Job, step: string, started: map<string, Task>, workers: seq<Worker>,
                        now: int, format: (string, Job, int) -> string, i: int, j: int)
    requires Plan(spec, job, step, started, workers, now, format).Some?
    requires 0 <= i < j < |Plan(spec, job, step, started, workers, now, format).value|
    ensures var ps := Plan(spec, job, step, started, workers, now, format).value;
      ps[i].tasks.Keys !! ps[j].tasks.Keys
  {
    var ps := Plan(spec, job, step, started, workers, now, format).value;
    var a := TaskId(job.id, step, workers[i].id, |started| + i);
    var b := TaskId(job.id, step, workers[j].id, |started| + j);
    PlanShape(spec, job, step, started, workers, now, format, i);
    PlanShape(spec, job, step, started, workers, now, format, j);
    TaskIdsDiffer(job.id, step, workers[i].id, |started| + i, job.id, step, workers[j].id, |started| + j);
    assert ps[i].tasks.Keys == {a} && ps[j].tasks.Keys == {b} && a != b;
  }
}
