/**
 The dictionary helpers `mapMap` and `arrMap`, `Array.prototype.join`, and the
 process-wide memo cache of src/utils.ts.
 */
module Utils {
  import opened Prelude

  // ---------------------------------------------------------------------
  // mapMap

  /**
   The `reduce` inside `mapMap`: visit `keys` in order, adding
   `key: fn(dict[key], key)` to the accumulated dictionary `ret`.
   */
  function ReduceKeys<T, M>(dict: map<string, T>, keys: seq<string>, fn: (T, string) -> M,
                            ret: map<string, M>): map<string, M>
    requires forall i :: 0 <= i < |keys| ==> keys[i] in dict
  {
    if keys == [] then ret
    else ReduceKeys(dict, keys[1..], fn, ret[keys[0] := fn(dict[keys[0]], keys[0])])
  }

  /** The fold adds exactly the visited keys, each mapped through `fn`, and keeps the rest of `ret`. */
  lemma {:induction false} ReduceKeysSpec<T, M>(dict: map<string, T>, keys: seq<string>,
                                                 fn: (T, string) -> M, ret: map<string, M>)
    requires forall i :: 0 <= i < |keys| ==> keys[i] in dict
    ensures var r := ReduceKeys(dict, keys, fn, ret);
      && (forall k :: k in r <==> k in ret || k in keys)
      && (forall k :: k in keys ==> r[k] == fn(dict[k], k))
      && (forall k :: k in ret && k !in keys ==> r[k] == ret[k])
  {
    if keys != [] {
      var ret' := ret[keys[0] := fn(dict[keys[0]], keys[0])];
      ReduceKeysSpec(dict, keys[1..], fn, ret');
      forall k ensures k in keys <==> k == keys[0] || k in keys[1..] {
        assert keys == [keys[0]] + keys[1..];
      }
    }
  }

  /**
   The dictionary `mapMap(dict, fn)` builds: the keys of `dict`, each holding
   `fn(dict[k], k)`. The source builds it with the `reduce` above over
   `Object.keys(dict)`; `MapMapAnyOrder` shows the fold yields this dictionary
   whatever order the keys are listed in.
   */
  function MapMap<T, M>(dict: map<string, T>, fn: (T, string) -> M): map<string, M>
  {
    map k | k in dict :: fn(dict[k], k)
  }

  /**
   `mapMap`'s fold over any listing of the keys (such as `Object.keys` order)
   keeps exactly the keys of `dict`, holds `fn(dict[k], k)` at each, and so is
   the same dictionary for every order.
   */
  lemma MapMapAnyOrder<T, M>(dict: map<string, T>, keys: seq<string>, fn: (T, string) -> M)
    requires forall i :: 0 <= i < |keys| ==> keys[i] in dict
    requires forall k :: k in dict ==> k in keys
    ensures var r := ReduceKeys(dict, keys, fn, map[]);
      && r.Keys == dict.Keys
      && (forall k :: k in r ==> r[k] == fn(dict[k], k))
      && r == MapMap(dict, fn)
  {
    ReduceKeysSpec(dict, keys, fn, map[]);
  }

  // ---------------------------------------------------------------------
  // arrMap

  /**
   The `reduce` inside `arrMap` after its first `n` elements: element `val` at
   `index` is stored under its string form `show(val)` (JavaScript's `val + ''`).
   */
  function ArrReduce<T, M>(items: seq<T>, fn: (T, int) -> M, show: T -> string, n: nat): map<string, M>
    requires n <= |items|
  {
    if n == 0 then map[]
    else ArrReduce(items, fn, show, n - 1)[show(items[n - 1]) := fn(items[n - 1], n - 1)]
  }

  function ArrMap<T, M>(items: seq<T>, fn: (T, int) -> M, show: T -> string): map<string, M>
  {
    ArrReduce(items, fn, show, |items|)
  }

  /** After `n` elements, every element's string form is a key. */
  lemma {:induction false} ArrReduceHasKeys<T, M>(items: seq<T>, fn: (T, int) -> M, show: T -> string, n: nat)
    requires n <= |items|
    ensures forall i :: 0 <= i < n ==> show(items[i]) in ArrReduce(items, fn, show, n)
  {
    if n > 0 {
      ArrReduceHasKeys(items, fn, show, n - 1);
    }
  }

  /** After `n` elements, every key is the string form of one of them. */
  lemma {:induction false} ArrReduceOnlyKeys<T, M>(items: seq<T>, fn: (T, int) -> M, show: T -> string, n: nat,
                                                   k: string)
    requires n <= |items|
    requires k in ArrReduce(items, fn, show, n)
    ensures exists i :: 0 <= i < n && show(items[i]) == k
  {
    if k != show(items[n - 1]) {
      ArrReduceOnlyKeys(items, fn, show, n - 1, k);
      var i :| 0 <= i < n - 1 && show(items[i]) == k;
      assert 0 <= i < n && show(items[i]) == k;
    }
  }

  /** The value under a key comes from the LAST element among the first `n` that renders to it. */
  lemma {:induction false} ArrReduceLastWins<T, M>(items: seq<T>, fn: (T, int) -> M, show: T -> string, n: nat,
                                                   i: nat)
    requires i < n <= |items|
    requires forall j :: i < j < n ==> show(items[j]) != show(items[i])
    ensures show(items[i]) in ArrReduce(items, fn, show, n)
    ensures ArrReduce(items, fn, show, n)[show(items[i])] == fn(items[i], i)
  {
    if i < n - 1 {
      ArrReduceLastWins(items, fn, show, n - 1, i);
    }
  }

  /**
   After `n` elements, the keys are the string forms of those elements, and the
   value under a key comes from the LAST element among them that renders to it.
   */
  lemma ArrReduceSpec<T, M>(items: seq<T>, fn: (T, int) -> M, show: T -> string, n: nat)
    requires n <= |items|
    ensures var r := ArrReduce(items, fn, show, n);
      && (forall i :: 0 <= i < n ==> show(items[i]) in r)
      && (forall k :: k in r ==> exists i :: 0 <= i < n && show(items[i]) == k)
      && (forall i :: 0 <= i < n && (forall j :: i < j < n ==> show(items[j]) != show(items[i]))
            ==> r[show(items[i])] == fn(items[i], i))
  {
    ArrReduceHasKeys(items, fn, show, n);
    forall k | k in ArrReduce(items, fn, show, n) ensures exists i :: 0 <= i < n && show(items[i]) == k {
      ArrReduceOnlyKeys(items, fn, show, n, k);
    }
    forall i | 0 <= i < n && (forall j :: i < j < n ==> show(items[j]) != show(items[i]))
      ensures ArrReduce(items, fn, show, n)[show(items[i])] == fn(items[i], i)
    {
      ArrReduceLastWins(items, fn, show, n, i);
    }
  }

  /** `arrMap`: one entry per distinct string form; a later duplicate overwrites an earlier one. */
  lemma ArrMapLastWins<T, M>(items: seq<T>, fn: (T, int) -> M, show: T -> string)
    ensures var r := ArrMap(items, fn, show);
      && (forall k :: k in r <==> exists i :: 0 <= i < |items| && show(items[i]) == k)
      && (forall i :: 0 <= i < |items| && (forall j :: i < j < |items| ==> show(items[j]) != show(items[i]))
            ==> r[show(items[i])] == fn(items[i], i))
  {
    ArrReduceSpec(items, fn, show, |items|);
  }

  // ---------------------------------------------------------------------
  // memo

  /** The argument strings concatenated with `sep` between neighbours. */
  function Join(args: seq<string>, sep: string): string
  {
    if args == [] then ""
    else if |args| == 1 then args[0]
    else args[0] + sep + Join(args[1..], sep)
  }

  /** The memo key `args.join('//')`. */
  function MemoKey(args: seq<string>): string
  {
    Join(args, "//")
  }

  /** Different argument lists share a memo key when their joins coincide. */
  lemma {:induction false} MemoKeysCollide(a: string, b: string)
    ensures [a + "//" + b] != [a, b]
    ensures MemoKey([a + "//" + b]) == MemoKey([a, b])
  {
    assert Join([b], "//") == b;
    assert [a, b][1..] == [b];
  }

  /**
   The dictionary `memo.cache`, created once on the `memo` function object and
   therefore shared by every memoized function of the process. `calls` records
   the keys on which a wrapped function was actually run.
   */
  class MemoCache<V> {
    var cache: map<string, V>
    ghost var calls: seq<string>

    /** Each wrapped-function run added exactly one entry, and no key was run twice. */
    ghost predicate Valid()
      reads this
    {
      && Distinct(calls)
      && (forall k :: k in cache <==> k in calls)
    }

    constructor ()
      ensures Valid()
      ensures cache == map[] && calls == []
    {
      cache := map[];
      calls := [];
    }

    /**
     A call of a memoized `func` with `args`: a hit returns the stored `ret`
     whichever function stored it; a miss runs `func` and stores `{ret}`.
     Entries are only ever added.
     */
    method Call(func: seq<string> -> V, args: seq<string>) returns (ret: V)
      requires Valid()
      modifies this
      ensures Valid()
      ensures MemoKey(args) in old(cache) ==>
        ret == old(cache)[MemoKey(args)] && cache == old(cache) && calls == old(calls)
      ensures MemoKey(args) !in old(cache) ==>
        ret == func(args) && cache == old(cache)[MemoKey(args) := ret] && calls == old(calls) + [MemoKey(args)]
      ensures forall k :: k in old(cache) ==> k in cache && cache[k] == old(cache)[k]
    {
      var key := MemoKey(args);
      if key in cache {
        ret := cache[key];
      } else {
        ret := func(args);
        cache := cache[key := ret];
        calls := calls + [key];
      }
    }
  }
}
