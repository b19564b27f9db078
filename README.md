# kyoko-scheduler core in Dafny

This is a Dafny model of the scheduling core of kyoko-scheduler. kyoko-scheduler is a job scheduler that keeps all of its state in an etcd key-value store. The model covers five parts:

- **Resource arithmetic** (`Resources`, src/models.ts). A resource is a dictionary of named values, each a number or a vector of numbers. `add`, `sub` and `mul` work element by element. A number broadcasts against a vector, and a missing entry reads as zero.
- **Usage curves** (`Usages`). A usage curve maps time ticks to resources. `getAt` interpolates linearly between the two ticks that bracket a time. `Step.require` is the constant one-CPU curve over a one-hour horizon.
- **Jobs, steps and planning** (`Models`). This covers:
  - the records `Job`, `Step`, `Task` and `Worker`;
  - the dependency lookup `Job.deps`;
  - the task planner `Step.plan`, which decides whether a step is done, must wait, or gets one new task per worker.
- **The scheduler API** (`Kv`, `Scheduler`), src/api/scheduler.ts. The store is a map from keys to values. The operations are `select`, `dispatch`, `start`, `update`, `check` and `submit`:
  - the pure parts are functions;
  - a `Node` class whose `kv` field is the store gives each operation as a method;
  - each method is proved equal to its specification function, and the lemmas are stated about those functions.
- **The executor's record update** (`Service`), src/service.ts. `updateExecutor` merges an update into the running task's record and, once the task has finished, cuts the usage curve at the finish time. It then publishes the record under two keys.

The helpers of src/utils.ts are in `Utils`: `mapMap`, `arrMap` and the `memo` cache. The cache is a class whose one dictionary is shared by every memoised function. `Prelude` holds the shared definitions:

- `Option`;
- decimal rendering of naturals;
- a lexicographic string order;
- sorted key listings.

Where the code and the system's design description disagree, the model follows the code:

- **Completed tasks.** `plan` counts every started task towards `count`, whatever its finish or error state. There is no separate count of succeeded and errored tasks.
- **Step fields.** The step's fields are `count`, `tags`, `deps`, `cmd`, `cwd` and `env`. There are no `instances`, `concurrency` or `res` fields.
- **Dependency cycles.** `Job.deps` never records a visited step. So it returns an empty list whenever it terminates, and a cycle exhausts the call stack instead of being rejected. As a consequence `update` starts every step without a done record, whatever its dependencies.
- **The done record.** It holds the list of started-record names, not the records themselves.

Whatever the core learns from outside its own code is a parameter of the model, in one of these places:

- `Scheduler.World` holds the planner's answer for a job id and a step, whether a worker answers the start request, which tasks it forks, the stack depth left for `Job.deps`, and the clock.
- The worker filter `canRun` is a parameter of `Scheduler.Select` alone.
- The random job id is a parameter of `Scheduler.Node.Submit`.
- The executor's latest usage curve, which stands for `stp.usage`, is the `latest` parameter of `Service.Executor.UpdateExecutor`.
- `Usage.at` is not a parameter: it is fixed to `getAt` on a curve anchored at 0.

## Model

| member | source | states |
|---|---|---|
| Prelude.Filter | src/api/scheduler.ts:24-26 | the result keeps exactly the elements of the input that pass the predicate and is no longer than the input |
| Prelude.NatToString | src/models.ts:55 | the decimal rendering of an index is a non-empty string of digits, one digit long exactly below 10 |
| Prelude.NatToStringInjective | src/models.ts:55 | different task indices render to different strings |
| Prelude.SortedKeys | src/api/scheduler.ts:43 | a key listing has one entry per key, only keys of the store, in strictly increasing order |
| Prelude.SortedKeysComplete | src/api/scheduler.ts:43 | every key of the set appears in its listing |
| Prelude.SortedKeysDistinct | src/api/scheduler.ts:70 | a key listing has no repeated name |
| Prelude.BelowTotal | src/api/scheduler.ts:43 | the listing order compares every two different keys |
| Prelude.BelowTransitive | src/api/scheduler.ts:43 | the listing order is transitive |
| Prelude.BelowAsymmetric | src/api/scheduler.ts:43 | the listing order never puts two keys in both orders |
| Utils.ReduceKeysSpec | src/utils.ts:22-24 | reducing over a key list yields the accumulator's keys plus the listed keys, each listed key holding `fn(dict[k], k)` and every other key untouched |
| Utils.MapMapAnyOrder | src/utils.ts:22-24 | `mapMap`'s fold over any listing of the keys keeps exactly the input's keys, holds `fn(dict[k], k)` at each, and so gives the same dictionary in every order |
| Utils.ArrReduceSpec | src/utils.ts:18-20 | after the first n elements, the keys are exactly their renderings, and an element with no later duplicate holds `fn(val, index)` |
| Utils.ArrMapLastWins | src/utils.ts:18-20 | `arrMap` keys the result by the rendered element; of equal renderings the last element's entry survives |
| Utils.MemoKeysCollide | src/utils.ts:3 | the argument lists `["a//b"]` and `["a", "b"]` are different but get the same cache key |
| Utils.MemoCache.constructor | src/utils.ts:4-5 | the shared cache starts empty |
| Utils.MemoCache.Call | src/utils.ts:2-7 | a hit returns the stored value without calling the function; a miss calls it once and stores the result; entries are never overwritten or removed |
| Resources.Map | src/models.ts:111-116 | with a number operand the keys are self's keys, otherwise the union of both key sets, and each entry is `mapVal` of the two entries with missing ones read as 0 |
| Resources.ScalarVectorSwapsOperands | src/models.ts:102-103 | a number against a vector is computed as the vector against the number, so the operands change places |
| Resources.ScalarMinusVector | src/models.ts:102-103 | so a number minus a vector subtracts the number from every element |
| Resources.VectorsAlignOnLeft | src/models.ts:99-101 | two vectors combine element by element over the left vector's length, reading the right vector's missing elements as 0 |
| Resources.KeysOfArithmetic | src/models.ts:117-125 | `add` and `sub` produce the union of both key sets; `mul` keeps self's keys |
| Resources.AddMissingEntry | src/models.ts:117-118 | adding an entry that self lacks copies it unchanged |
| Resources.SubFromMissingEntry | src/models.ts:120-121 | subtracting an entry that self lacks negates a number but copies a vector unchanged (operands swap) |
| Resources.MulOne | src/models.ts:123-124 | `mul(1)` returns an equal resource |
| Resources.ValRoundTrip | src/models.ts:98-107 | for one value, adding then subtracting b restores a exactly unless a is a number and b a vector |
| Resources.AddSubRestores | src/models.ts:117-121 | `a.add(b).sub(b)` equals a when b's keys are a's and no number of a meets a vector of b |
| Resources.AddSubDiffers | src/models.ts:117-121 | otherwise the round trip does not give back a |
| Resources.AddSubRoundTrip | src/models.ts:117-121 | both directions: the round trip restores a exactly under that condition |
| Resources.NonNegativePlus | src/models.ts:98-107 | adding two non-negative values gives a non-negative value |
| Resources.ValidAdd | src/models.ts:117-130 | the sum of two valid resources is valid |
| Resources.ValidMul | src/models.ts:123-130 | scaling a valid resource by a non-negative number keeps it valid |
| Resources.SubScalarEntry | src/models.ts:120-121 | where both entries are numbers, the difference entry is the capacity minus the demand, missing entries read as 0 |
| Resources.FitsWithin | src/models.ts:120-130 | for resources of numbers, `capacity.sub(demand).valid()` holds exactly when every demand is at most the capacity |
| Usages.SortedInts | src/models.ts:141-143 | the ticks sorted numerically: one entry per tick, strictly increasing |
| Usages.SortedIntsComplete | src/models.ts:141-143 | every tick appears in the sorted list |
| Usages.Ticks | src/models.ts:141-143 | the created-shifted ticks are in increasing order |
| Usages.FindFrom | src/models.ts:144 | `findIndex` returns -1 or an index whose tick and the next bracket the time, left strict and right inclusive |
| Usages.Bracket | src/models.ts:144-146 | a bracket found satisfies `left < time <= right` |
| Usages.Weight | src/models.ts:147 | the interpolation weight lies in (0, 1] |
| Usages.BracketIsTight | src/models.ts:144-146 | the bracket is made of ticks and no tick lies strictly between them |
| Usages.BracketExistsIff | src/models.ts:144-151 | a bracket exists exactly when some tick lies before the time and some tick at or after it, so there is none at or before the first tick or past the last |
| Usages.BlendIsLerp | src/models.ts:148 | `l.mul((1-k)/k).add(r).mul(k)` is `(1-k)·l + k·r` for entries of matching shape |
| Usages.GetAtInterpolates | src/models.ts:139-148 | with created 0 and both samples stored, `getAt` returns the linear interpolation by `k = (time-left)/(right-left)` |
| Usages.LerpAtOne | src/models.ts:147-148 | at weight 1 the interpolation is the right sample |
| Usages.GetAtRightEnd | src/models.ts:146-148 | at the right tick `getAt` returns the right sample exactly |
| Usages.AnchoredNeverThrows | src/models.ts:139-152 | with created 0 `getAt` never throws |
| Usages.RequireConstant | src/models.ts:33-45 | the required curve anchored at 0 samples one CPU everywhere in the first hour |
| Usages.RequireShiftedIsEmpty | src/models.ts:33-45 | anchored anywhere but 0 or plus or minus one hour, the shifted ticks miss the stored keys, so the sample is an empty resource |
| Usages.RequireThrowsAtOneHour | src/models.ts:33-45 | anchored at exactly one hour, the left key is stored but not the right one, so interpolation throws |
| Models.Unvisited | src/models.ts:18 | the filtered list keeps exactly the dependencies not yet in `out` |
| Models.DepsAlwaysEmpty | src/models.ts:16-20 | `out` is never written, so `deps` returns an empty list whenever it terminates |
| Models.CycleOverflows | src/models.ts:16-20 | a step on a dependency cycle exhausts every stack budget |
| Models.CycleOverflowsEach | src/models.ts:18 | visiting a list that contains a step on a cycle exhausts the stack |
| Models.AcyclicReturns | src/models.ts:16-20 | a step whose dependency chains are at most n long returns with a budget above n |
| Models.AcyclicReturnsEach | src/models.ts:18 | visiting dependencies of lower rank returns |
| Models.ChainReportsNothing | src/models.ts:16-20 | on the chain B depends on A, `deps("B")` is empty although A is a direct dependency |
| Models.SelfLoopOverflows | src/models.ts:16-20 | a step depending on itself overflows whatever the stack budget |
| Models.PlanDecision | src/models.ts:48-70 | done exactly when at least `count` tasks started; wait exactly when fewer workers than missing tasks; otherwise exactly `count - started` plans |
| Models.PlanShape | src/models.ts:50-64 | plan i goes to `workers[i]` and holds one task, with index `started + i` below `count`, total `count` and id `j{job}-s{step}-w{worker}-t{index}` |
| Models.PlanCountsStarted | src/models.ts:48-50 | the plan depends on the started tasks only through their number, not their finish or error state |
| Models.DigitSuffixUnique | src/models.ts:55 | two ids equal as strings have the same index suffix after the last `-t` |
| Models.TaskIdsDiffer | src/models.ts:55 | task ids with different indices differ, whatever the job, step and worker ids |
| Models.PlanIdsDistinct | src/models.ts:50-64 | the tasks of different plans have different ids |
| Kv.Under | src/api/scheduler.ts:59 | a namespace listing holds exactly the names whose prefixed key is in the store, with their values |
| Kv.Listing | src/api/scheduler.ts:70 | the keys of a namespace: no repeats, exactly the names whose prefixed key is in the store |
| Scheduler.Dedupe | src/api/scheduler.ts:22 | `Array.from(new Set(...))` has no repeats and keeps exactly the ids not seen before |
| Scheduler.TaggedUnion | src/api/scheduler.ts:21-22 | an id is tagged exactly when it is under the namespace of some requested tag (union, not intersection) |
| Scheduler.CandidatesExact | src/api/scheduler.ts:21-24 | a candidate is a tagged id with no dispatching lock, listed once |
| Scheduler.SelectExact | src/api/scheduler.ts:20-29 | `select` returns exactly the registered workers of unlocked candidates that `canRun` accepts |
| Scheduler.Accepted | src/api/worker.ts:54-66 | the worker accepts exactly the tasks it managed to fork |
| Scheduler.PutEachSpec | src/api/scheduler.ts:36 | putting the accepted tasks adds exactly their prefixed keys with their task records and keeps every other key |
| Scheduler.DispatchWritesAccepted | src/api/scheduler.ts:32-37 | a dispatch that reaches the worker writes started records for exactly the accepted ids, keeps every other key and releases the lock |
| Scheduler.DispatchLockOutcome | src/api/scheduler.ts:32-40 | after a dispatch the worker's lock is held exactly when it was held before or the worker could not be reached |
| Scheduler.DispatchFrame | src/api/scheduler.ts:30-41 | a dispatch changes no key outside the step's started records and the worker locks |
| Scheduler.DispatchAllFrame | src/api/scheduler.ts:50-51 | dispatching a whole plan changes no key outside those namespaces |
| Scheduler.StartDoneRecord | src/api/scheduler.ts:43-55 | `start` writes the done record, holding the started names, exactly when the plan is undefined; a defined plan, even empty, leaves it as it was |
| Scheduler.StartKeepsSubmitted | src/api/scheduler.ts:42-56 | `start` never touches a submitted-job record |
| Scheduler.RunnableExact | src/api/scheduler.ts:60 | when `deps` terminates, the runnable steps are exactly the steps without a done record |
| Scheduler.RunnableThrows | src/api/scheduler.ts:60 | the runnable filter throws exactly when some step without a done record overflows in `deps` |
| Scheduler.StartAllKeepsSubmitted | src/api/scheduler.ts:62-63 | starting the runnable steps never touches a submitted-job record |
| Scheduler.UpdateDeletesJob | src/api/scheduler.ts:57-68 | `update` deletes the job record when every step has a done record, and otherwise leaves it in place |
| Scheduler.UpdateStartsUndone | src/api/scheduler.ts:58-63 | `update` starts exactly the steps without a done record |
| Scheduler.OverflowFailsUpdate | src/api/scheduler.ts:60 | a step without a done record that overflows in `deps` makes `update` fail |
| Scheduler.FailedJobStaysLocked | src/api/scheduler.ts:72-80 | a failed update leaves its job's checking lock held, so later checks of that job change nothing |
| Scheduler.SubmitThenListed | src/api/scheduler.ts:83-85 | a submitted job is listed under the submitted namespace and reads back with its id filled in |
| Scheduler.Node.constructor | src/api/scheduler.ts:19 | the scheduler starts over the given store |
| Scheduler.Node.Dispatch | src/api/scheduler.ts:30-41 | the new store is the dispatch specification of the old store |
| Scheduler.Node.PutStarted | src/api/scheduler.ts:36 | the puts of the started records leave the store the record-by-record specification gives |
| Scheduler.Node.Start | src/api/scheduler.ts:42-56 | the new store is the start specification of the old store |
| Scheduler.Node.Update | src/api/scheduler.ts:57-68 | the new store and the success flag are the update specification of the old store |
| Scheduler.Node.Check | src/api/scheduler.ts:69-82 | the new store comes from running the locked update over every submitted id in listing order, a failure not stopping the rest |
| Scheduler.Node.CheckJob | src/api/scheduler.ts:73-80 | one job: a held lock skips it; otherwise lock, update, and release only if the update succeeded |
| Scheduler.Node.Submit | src/api/scheduler.ts:83-88 | the id is the job's own when set, otherwise the random one, and the job is stored under it with that id |
| Service.Assign | src/service.ts:144 | the merged record takes the new usage, then the update's `created`, `finished` and `code` over the old values, and keeps job, step and worker |
| Service.UnfinishedTakesFresh | src/service.ts:145-148 | before the task has finished the usage is replaced by the latest curve and nothing is cut |
| Service.UsageAfterThrows | src/service.ts:145-151 | the update throws exactly when the task has finished and there was no previous curve |
| Service.NothingLateKeepsFresh | src/service.ts:145-151 | with no previous tick past the finish, nothing is cut and no sample is added |
| Service.FinishedCut | src/service.ts:145-150 | once finished, a tick survives exactly when it was not past the finish in the previous curve; survivors keep their latest samples and the finish tick holds the interpolated sample |
| Service.RecordKeysIgnoreTask | src/service.ts:152-153 | both record keys render the worker and job objects as `[object Object]`, so they depend only on the executor id, and they differ from each other |
| Service.DeleteTicks | src/service.ts:149 | deleting the listed ticks removes exactly those ticks from the curve |
| Service.SortedIntsExact | src/service.ts:146 | the sorted list of late ticks names exactly the late ticks |
| Service.Executor.constructor | src/service.ts:140-141 | the executor starts with its id, its record and its view of the store |
| Service.Executor.UpdateExecutor | src/service.ts:139-156 | the record is merged before anything can throw; on success the cut curve is stored in it and the same record is written under both keys, built from the task before the merge; on failure the store is unchanged |

## Left out

- `format` and its `memo`-ed `formatter` (src/utils.ts:11-16) evaluate templates with `new Function`. They are an uninterpreted parameter of `Models.Plan`.
- src/api/worker.ts, src/api/executor.ts and cli.js are left out: process spawning, readiness messages, kill of a process group, argument parsing. Only the set of task ids a worker forked is kept, as the `forked` predicate of `Scheduler.World`.
- `kill` (src/api/scheduler.ts:89-93) is an RPC fan-out to executors and is not modelled.
- src/service.ts outside `updateExecutor` is left out: leases, watchers, debounce, `updateWorker` and process start-up.
- Locks are the presence of their key in the store. Acquiring a held lock fails, and the lock value is taken as non-empty. Lease expiry and other schedulers running at the same time are not modelled.
- `Promise.all` is modelled as running its callbacks one after another in array order. Interleavings of the store writes are not modelled.
- Key listings and `Object.keys` are modelled in lexicographic key order. etcd returns keys in byte order; JavaScript objects keep insertion order, with integer-like keys first.
- Resource values and ticks are `real` and `int`. IEEE rounding, `NaN`, and the falsy values other than a missing entry (such as `0` and `null` elements, which read as 0 anyway) are not modelled. Tick keys of a usage curve are integers rather than numeric strings.
- JSON serialisation is not modelled. A record is stored as a value, so `undefined` fields and their removal by `JSON.stringify` are not represented.
- The step's `usage` method, `Worker.canRun`, the plan result and `Usage.at` do not match the definitions in src/models.ts. So `canRun` is a parameter of `Scheduler.Select`, and `Usage.at` is taken to be `getAt` on a curve anchored at 0.
- `start`'s call of `select` and of `stp.plan` (src/api/scheduler.ts:45-48) is not modelled. The plan is a free function of the job id and the step in `Scheduler.World`, so `Scheduler.StartSpec` does not tie the planned workers to the workers `select` returns.
- The JavaScript call stack is a parameter: `Models.Deps` takes a budget `depth`, and running out of it stands for the `RangeError` that a dependency cycle causes.
- `Date.now()` and `Math.random()` are parameters: `now` in `Scheduler.World`, the creation times, and the random id of `Scheduler.Node.Submit`.
- Utils.MemoCache.Call: the cache is keyed by the joined argument strings. Arguments that are not strings are not modelled, and the memoised function is a pure function of its arguments.
- Step names, resource names and memo keys that are members of `Object.prototype` (`constructor`, `toString`, `__proto__` and the like) are not modelled. In the source a lookup such as `out[dep]`, `done[step]`, `val[key]` or `cache[keys]` finds the inherited member. The model treats every such name as an ordinary absent key. This affects `Models.Unvisited`, `Scheduler.Runnable`, `Resources.Map` and `Utils.MemoCache.Call`.
- Store operations never fail in the model, and neither do the stand-ins for `stp.usage`, `select` and `plan`. In the source, a rejection in `start` (src/api/scheduler.ts:43-54) fails `update` through `Promise.all` after the sibling starts have taken effect, and `check` then keeps that job's lock. In the model, `Scheduler.UpdateSpec` fails only when `deps` overflows.
