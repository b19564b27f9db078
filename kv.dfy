/**
 The coordination store as the scheduler sees it: a map from key to decoded
 record, the key layout of src/api/scheduler.ts and src/service.ts, and the
 `namespace(prefix).getAll()` listing, which strips the prefix.
 */
module Kv {
  import opened Prelude
  import opened Models

  /** A decoded record of the store. */
  datatype Value =
    | JobV(job: Job)              // job/submited/{id}
    | TaskV(task: Task)           // step/started/{job}/{step}/{task id}
    | DoneV(keys: seq<string>)    // step/done/{job}/{step}
    | WorkerV(worker: Worker)     // worker/{id}
    | FlagV                       // worker/tagged/{tag}/{id}
    | LockV                       // worker/dispatching/{id}, job/checking/{id}
    | RecordV(record: Running)    // task/running/..., task/executing/...

  type Store = map<string, Value>

  function SubmittedPrefix(): string { "job/submited/" }
  function SubmittedKey(id: string): string { SubmittedPrefix() + id }
  function CheckLock(id: string): string { "job/checking/" + id }
  function DonePrefix(jobId: string): string { "step/done/" + jobId + "/" }
  function DoneKey(jobId: string, step: string): string { DonePrefix(jobId) + step }
  function StartedPrefix(jobId: string, step: string): string { "step/started/" + jobId + "/" + step + "/" }
  function TaggedPrefix(tag: string): string { "worker/tagged/" + tag + "/" }
  function DispatchLock(workerId: string): string { "worker/dispatching/" + workerId }
  function WorkerKey(workerId: string): string { "worker/" + workerId }

  predicate StartsWith(s: string, prefix: string)
  {
    |prefix| <= |s| && s[..|prefix|] == prefix
  }

  /** The keys of `prefix`'s namespace, with the prefix stripped. */
  function Names(kv: Store, prefix: string): set<string>
  {
    set k | k in kv && StartsWith(k, prefix) :: k[|prefix|..]
  }

  /** `etcd.namespace(prefix).getAll()`: the records under `prefix`, keyed by the rest of their key. */
  function Under(kv: Store, prefix: string): (r: map<string, Value>)
    ensures forall name :: name in r <==> prefix + name in kv
    ensures forall name :: name in r ==> r[name] == kv[prefix + name]
  {
    forall name | name in Names(kv, prefix) ensures prefix + name in kv {
      var k :| k in kv && StartsWith(k, prefix) && name == k[|prefix|..];
      assert k == prefix + name;
    }
    forall name | prefix + name in kv ensures name in Names(kv, prefix) {
      var k := prefix + name;
      assert StartsWith(k, prefix) && k[|prefix|..] == name;
    }
    map name | name in Names(kv, prefix) :: kv[prefix + name]
  }

  /** `getAll().keys()`: the names under `prefix` in the order the store lists them. */
  function Listing(kv: Store, prefix: string): (r: seq<string>)
    ensures Distinct(r)
    ensures forall name :: name in r <==> prefix + name in kv
  {
    var names := Under(kv, prefix).Keys;
    SortedKeysDistinct(names);
    forall name | name in names ensures name in SortedKeys(names) {
      SortedKeysComplete(names, name);
    }
    SortedKeys(names)
  }

  /** Two keys whose first characters differ. */
  lemma DifferAt(a: string, b: string, i: nat)
    requires i < |a| && i < |b| && a[i] != b[i]
    ensures a != b
  {
  }

  /** A key that starts differently from `prefix` is outside its namespace. */
  lemma OutsideNamespace(k: string, prefix: string, i: nat)
    requires i < |k| && i < |prefix| && k[i] != prefix[i]
    ensures !StartsWith(k, prefix)
  {
  }
}
