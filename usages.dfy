/**
 A usage curve (class `Usage` of src/models.ts): resource samples keyed by tick,
 each tick an offset from the task's creation time, read between samples by
 linear interpolation (`getAt`). Also `Step.require`, the constant two-point
 curve a step declares when it names no policy of its own.
 */
module Usages {
  import opened Prelude
  import opened Resources

  // ---------------------------------------------------------------------
  // Numeric order on integers, the order of a usage curve's ticks.

  lemma NonEmptyHasElement(s: set<int>)
    requires s != {}
    ensures exists y :: y in s
  {
    if forall x :: x !in s {
      assert false;
    }
  }

  /** The least element of a finite non-empty set of integers. */
  ghost function LeastInt(s: set<int>): (m: int)
    requires s != {}
    ensures m in s
    ensures forall x :: x in s ==> m <= x
    decreases |s|
  {
    NonEmptyHasElement(s);
    var y :| y in s;
    if s == {y} then y
    else
      var m := LeastInt(s - {y});
      assert forall x :: x in s && x != y ==> x in s - {y};
      if y <= m then y else m
  }

  /** A set of integers sorted ascending, as `.sort((a, b) => a - b)` orders distinct numbers. */
  function SortedInts(s: set<int>): (r: seq<int>)
    ensures |r| == |s|
    ensures forall i :: 0 <= i < |r| ==> r[i] in s
    ensures forall i, j :: 0 <= i < j < |r| ==> r[i] < r[j]
    decreases |s|
  {
    if s == {} then []
    else
      var least := LeastInt(s);
      var m :| m in s && forall x :: x in s ==> m <= x;
      var rest := SortedInts(s - {m});
      assert forall i :: 0 <= i < |rest| ==> rest[i] in s && m < rest[i];
      [m] + rest
  }

  /** The sorted sequence holds every element of the set. */
  lemma {:induction false} SortedIntsComplete(s: set<int>, x: int)
    requires x in s
    ensures x in SortedInts(s)
    decreases |s|
  {
    var least := LeastInt(s);
    var m :| m in s && forall y :: y in s ==> m <= y;
    assert SortedInts(s) == [m] + SortedInts(s - {m});
    if x != m { SortedIntsComplete(s - {m}, x); }
  }

  // ---------------------------------------------------------------------
  // getAt

  /** `task.created || 0` and `res`. */
  datatype Usage = Usage(created: int, res: map<int, Resource>)

  /** What `getAt` gives back: `undefined`, a resource, or a thrown TypeError. */
  datatype Sample = NoSample | Sampled(r: Resource) | TypeError

  /** The ticks moved to wall-clock time: `parseInt(time) + (task.created || 0)`. */
  function Shifted(u: Usage): set<int>
  {
    set t | t in u.res :: t + u.created
  }

  /** The shifted ticks in ascending order. */
  function Ticks(u: Usage): (r: seq<int>)
    ensures forall i, j :: 0 <= i < j < |r| ==> r[i] < r[j]
  {
    SortedInts(Shifted(u))
  }

  /** `ticks.findIndex(...)` from index `j` on: the first `i` with `ticks[i] < time <= ticks[i + 1]`. */
  function FindFrom(ticks: seq<int>, time: int, j: nat): (i: int)
    ensures i == -1 || (j <= i && i + 1 < |ticks| && ticks[i] < time <= ticks[i + 1])
    decreases |ticks| - j
  {
    if j >= |ticks| then -1
    else if ticks[j] < time && j + 1 < |ticks| && time <= ticks[j + 1] then j
    else FindFrom(ticks, time, j + 1)
  }

  /** The two ticks `[left, right]` that `getAt` settles on, when `findIndex` finds any. */
  function Bracket(u: Usage, time: int): (r: Option<(int, int)>)
    ensures r.Some? ==> r.value.0 < time <= r.value.1
  {
    var ticks := Ticks(u);
    var i := FindFrom(ticks, time, 0);
    if i < 0 then None else Some((ticks[i], ticks[i + 1]))
  }

  /** The source's interpolation formula `L.mul((1 - k) / k).add(R).mul(k)`. */
  function Blend(l: Resource, r: Resource, k: real): Resource
    requires k != 0.0
  {
    Mul(Add(Mul(l, (1.0 - k) / k), r), k)
  }

  /** The weight `getAt` gives the right-hand sample. */
  function Weight(left: int, right: int, time: int): (k: real)
    requires left < time <= right
    ensures 0.0 < k <= 1.0
  {
    (time - left) as real / (right - left) as real
  }

  /**
   `Usage.getAt(time)`. Outside a bracket it is `undefined`. Inside, it blends
   `res[left]` and `res[right]` with weight `k = (time - left) / (right - left)`,
   looking `res` up by the SHIFTED ticks. A missing `res[left]` becomes an empty
   resource; a missing `res[right]` is `undefined`, and `add(undefined)` throws
   as soon as the left-hand resource has any key.
   */
  function GetAt(u: Usage, time: int): Sample
  {
    match Bracket(u, time)
    case None => NoSample
    case Some((left, right)) =>
      var k := Weight(left, right, time);
      var l := if left in u.res then u.res[left] else map[];
      if right in u.res then Sampled(Blend(l, u.res[right], k))
      else if l == map[] then Sampled(map[])
      else TypeError
  }

  // ---------------------------------------------------------------------
  // Where getAt is defined.

  lemma {:induction false} FindFromReaches(ticks: seq<int>, time: int, s: nat, j: nat)
    requires s <= j && j + 1 < |ticks| && ticks[j] < time <= ticks[j + 1]
    ensures FindFrom(ticks, time, s) >= 0
    decreases j - s
  {
    if s < j && !(ticks[s] < time && time <= ticks[s + 1]) {
      FindFromReaches(ticks, time, s + 1, j);
    }
  }

  lemma {:induction false} AdjacentBracket(ticks: seq<int>, time: int, j: nat, l: nat)
    requires j < l < |ticks| && ticks[j] < time <= ticks[l]
    ensures FindFrom(ticks, time, 0) >= 0
    decreases l - j
  {
    if time <= ticks[j + 1] {
      FindFromReaches(ticks, time, 0, j);
    } else {
      AdjacentBracket(ticks, time, j + 1, l);
    }
  }

  /** A tick strictly before `time` and a tick at or after it: `findIndex` succeeds. */
  lemma BracketFound(u: Usage, time: int, a: int, b: int)
    requires a in Shifted(u) && b in Shifted(u) && a < time <= b
    ensures Bracket(u, time).Some?
  {
    var ticks := Ticks(u);
    SortedIntsComplete(Shifted(u), a);
    SortedIntsComplete(Shifted(u), b);
    var j :| 0 <= j < |ticks| && ticks[j] == a;
    var l :| 0 <= l < |ticks| && ticks[l] == b;
    if l <= j {
      assert false;
    }
    AdjacentBracket(ticks, time, j, l);
  }

  /**
   The bracket is tight: `left` is the last tick before `time` and `right` the
   first tick at or after it.
   */
  lemma BracketIsTight(u: Usage, time: int, left: int, right: int)
    requires Bracket(u, time) == Some((left, right))
    ensures left in Shifted(u) && right in Shifted(u) && left < time <= right
    ensures forall t :: t in Shifted(u) && t < time ==> t <= left
    ensures forall t :: t in Shifted(u) && time <= t ==> right <= t
  {
    var ticks := Ticks(u);
    var i := FindFrom(ticks, time, 0);
    assert ticks[i] == left && ticks[i + 1] == right;
    forall t | t in Shifted(u) ensures (t < time ==> t <= left) && (time <= t ==> right <= t) {
      SortedIntsComplete(Shifted(u), t);
      AdjacentIsTight(ticks, time, i, t);
    }
  }

  /** In an increasing list, adjacent entries around `time` leave no entry between them. */
  lemma AdjacentIsTight(ticks: seq<int>, time: int, i: nat, t: int)
    requires forall a, b :: 0 <= a < b < |ticks| ==> ticks[a] < ticks[b]
    requires i + 1 < |ticks| && ticks[i] < time <= ticks[i + 1]
    requires t in ticks
    ensures t < time ==> t <= ticks[i]
    ensures time <= t ==> ticks[i + 1] <= t
  {
    var m :| 0 <= m < |ticks| && ticks[m] == t;
    if m > i + 1 { assert ticks[i + 1] < ticks[m]; }
    if m < i { assert ticks[m] < ticks[i]; }
  }

  /**
   `getAt` finds a bracket exactly when some tick lies strictly before `time` and
   some tick at or after it: so it is undefined at or before the first tick
   (the first tick itself included) and after the last.
   */
  lemma BracketExistsIff(u: Usage, time: int)
    ensures Bracket(u, time).Some? <==>
      exists a, b :: a in Shifted(u) && b in Shifted(u) && a < time <= b
  {
    if exists a, b :: a in Shifted(u) && b in Shifted(u) && a < time <= b {
      var a, b :| a in Shifted(u) && b in Shifted(u) && a < time <= b;
      BracketFound(u, time, a, b);
    }
    if Bracket(u, time).Some? {
      var (left, right) := Bracket(u, time).value;
      BracketIsTight(u, time, left, right);
    }
  }

  // ---------------------------------------------------------------------
  // The interpolated value.

  /** Two samples of the same shape: the same names, and per name two numbers or two equal-length vectors. */
  predicate Compatible(l: Resource, r: Resource)
  {
    && l.Keys == r.Keys
    && forall key :: key in l ==>
         (l[key].Scalar? && r[key].Scalar?) || (l[key].Vec? && r[key].Vec? && |l[key].xs| == |r[key].xs|)
  }

  /** The textbook weighting `(1 - k) * L + k * R`, entry by entry. */
  function LerpVal(l: Val, r: Val, k: real): Val
  {
    match l
    case Scalar(a) => Scalar((1.0 - k) * a + k * (if r.Scalar? then r.x else 0.0))
    case Vec(xs) =>
      var ys := if r.Vec? then r.xs else [];
      Vec(seq(|xs|, i requires 0 <= i < |xs| => (1.0 - k) * xs[i] + k * Elem(ys, i)))
  }

  function Lerp(l: Resource, r: Resource, k: real): Resource
  {
    map key | key in l :: LerpVal(l[key], Get(r, key), k)
  }

  lemma LerpArith(a: real, b: real, k: real)
    requires k != 0.0
    ensures Times(Plus(Times(a, (1.0 - k) / k), b), k) == (1.0 - k) * a + k * b
  {
    var c := (1.0 - k) / k;
    assert c * k == 1.0 - k;
    calc {
      (a * c + b) * k;
      a * (c * k) + b * k;
      (1.0 - k) * a + k * b;
    }
  }

  /** On one entry, `l.mul((1 - k) / k).add(r).mul(k)` is the textbook weighting. */
  lemma {:induction false} InterpolateVal(l: Val, r: Val, k: real)
    requires k != 0.0
    requires (l.Scalar? && r.Scalar?) || (l.Vec? && r.Vec? && |l.xs| == |r.xs|)
    ensures MapVal(MapVal(MapVal(l, Scalar((1.0 - k) / k), Times), r, Plus), Scalar(k), Times)
            == LerpVal(l, r, k)
  {
    var c := (1.0 - k) / k;
    var s1 := MapVal(l, Scalar(c), Times);
    var s2 := MapVal(s1, r, Plus);
    var s3 := MapVal(s2, Scalar(k), Times);
    if l.Scalar? {
      LerpArith(l.x, r.x, k);
    } else {
      var want := LerpVal(l, r, k);
      forall i | 0 <= i < |l.xs| ensures s3.xs[i] == want.xs[i] {
        assert s1.xs[i] == Times(l.xs[i], c);
        assert s2.xs[i] == Plus(s1.xs[i], r.xs[i]);
        assert s3.xs[i] == Times(s2.xs[i], k);
        LerpArith(l.xs[i], r.xs[i], k);
      }
      assert s3.xs == want.xs;
    }
  }

  lemma InterpolateEntry(l: Resource, r: Resource, k: real, key: string)
    requires k != 0.0 && Compatible(l, r) && key in l
    ensures key in Blend(l, r, k)
    ensures Blend(l, r, k)[key] == LerpVal(l[key], r[key], k)
  {
    var s1 := Mul(l, (1.0 - k) / k);
    var s2 := Add(s1, r);
    assert s1[key] == MapVal(l[key], Scalar((1.0 - k) / k), Times);
    assert s2[key] == MapVal(s1[key], r[key], Plus);
    InterpolateVal(l[key], r[key], k);
  }

  /** For samples of one shape, the source's formula is `(1 - k) * L + k * R`. */
  lemma {:induction false} BlendIsLerp(l: Resource, r: Resource, k: real)
    requires k != 0.0 && Compatible(l, r)
    ensures Blend(l, r, k) == Lerp(l, r, k)
  {
    var got := Blend(l, r, k);
    var want := Lerp(l, r, k);
    BlendKeys(l, r, k);
    assert want.Keys == l.Keys;
    forall key | key in l ensures got[key] == want[key] {
      InterpolateEntry(l, r, k, key);
    }
  }

  /** For samples with the same names, the blend has exactly those names. */
  lemma BlendKeys(l: Resource, r: Resource, k: real)
    requires k != 0.0 && Compatible(l, r)
    ensures Blend(l, r, k).Keys == l.Keys
  {
    var s1 := Mul(l, (1.0 - k) / k);
    assert s1.Keys == l.Keys;
    assert Add(s1, r).Keys == l.Keys;
  }

  /**
   With `created` 0 (so the shifted ticks are the stored keys) and two samples
   of one shape around `time`, `getAt` is the linear interpolation between the
   bracketing samples with weight `k = (time - left) / (right - left)` on the right.
   */
  lemma GetAtInterpolates(u: Usage, time: int, left: int, right: int)
    requires u.created == 0
    requires Bracket(u, time) == Some((left, right))
    requires left in u.res && right in u.res
    requires Compatible(u.res[left], u.res[right])
    ensures GetAt(u, time) == Sampled(Lerp(u.res[left], u.res[right], Weight(left, right, time)))
  {
    BracketIsTight(u, time, left, right);
    var k := Weight(left, right, time);
    assert k != 0.0;
    BlendIsLerp(u.res[left], u.res[right], k);
  }

  lemma LerpAtOne(l: Resource, r: Resource)
    requires Compatible(l, r)
    ensures Lerp(l, r, 1.0) == r
  {
    forall key | key in l ensures Lerp(l, r, 1.0)[key] == r[key] {
      if l[key].Vec? {
        var got := LerpVal(l[key], r[key], 1.0);
        forall i | 0 <= i < |r[key].xs| ensures got.xs[i] == r[key].xs[i] {
          assert got.xs[i] == (1.0 - 1.0) * l[key].xs[i] + 1.0 * Elem(r[key].xs, i);
        }
        assert got.xs == r[key].xs;
      }
    }
  }

  /** At the right end of a bracket (`time == right`) `getAt` returns the right sample itself. */
  lemma GetAtRightEnd(u: Usage, left: int, right: int)
    requires u.created == 0
    requires Bracket(u, right) == Some((left, right))
    requires left in u.res && right in u.res
    requires Compatible(u.res[left], u.res[right])
    ensures GetAt(u, right) == Sampled(u.res[right])
  {
    var k := Weight(left, right, right);
    assert k == 1.0;
    GetAtInterpolates(u, right, left, right);
    LerpAtOne(u.res[left], u.res[right]);
  }

  /** With `created` 0 every bracketing tick is a stored key, so `getAt` never throws. */
  lemma AnchoredNeverThrows(u: Usage, time: int)
    requires u.created == 0
    ensures GetAt(u, time) != TypeError
  {
    if Bracket(u, time).Some? {
      var (left, right) := Bracket(u, time).value;
      BracketIsTight(u, time, left, right);
    }
  }

  // ---------------------------------------------------------------------
  // Step.require

  /** The planning horizon, one hour in milliseconds. */
  const Horizon: int := 60 * 60 * 1000

  /** The resource of one CPU and nothing else. */
  function OneCpu(): Resource
  {
    map["cpu" := Scalar(1.0)]
  }

  /** `Step.require`: one cpu at ticks 0 and one hour, for a task created at `now`. */
  function Require(now: int): Usage
  {
    Usage(now, map[0 := OneCpu(), Horizon := OneCpu()])
  }

  lemma RequireTicks(now: int)
    ensures Shifted(Require(now)) == {now, now + Horizon}
  {
    var u := Require(now);
    assert 0 in u.res && now == 0 + now;
    assert Horizon in u.res && now + Horizon == Horizon + now;
  }

  /** Inside the hour after `now`, the bracket of the required curve is the whole hour. */
  lemma RequireBracket(now: int, time: int)
    requires now < time <= now + Horizon
    ensures Bracket(Require(now), time) == Some((now, now + Horizon))
  {
    var u := Require(now);
    RequireTicks(now);
    BracketFound(u, time, now, now + Horizon);
    var (left, right) := Bracket(u, time).value;
    BracketIsTight(u, time, left, right);
  }

  lemma LerpOneCpu(k: real)
    ensures Lerp(OneCpu(), OneCpu(), k) == OneCpu()
  {
    var l := Lerp(OneCpu(), OneCpu(), k);
    assert l.Keys == {"cpu"};
    assert l["cpu"] == Scalar((1.0 - k) * 1.0 + k * 1.0);
  }

  /** Read at created 0, the required curve is one cpu throughout the hour. */
  lemma RequireConstant(time: int)
    requires 0 < time <= Horizon
    ensures GetAt(Require(0), time) == Sampled(OneCpu())
  {
    var u := Require(0);
    RequireBracket(0, time);
    assert Compatible(OneCpu(), OneCpu());
    GetAtInterpolates(u, time, 0, Horizon);
    LerpOneCpu(Weight(0, Horizon, time));
  }

  /**
   For a real creation time, the shifted ticks miss the stored keys 0 and one
   hour, and `getAt` inside the hour yields an empty resource.
   */
  lemma RequireShiftedIsEmpty(now: int, time: int)
    requires now != 0 && now != Horizon && now != -Horizon
    requires now < time <= now + Horizon
    ensures GetAt(Require(now), time) == Sampled(map[])
  {
    RequireBracket(now, time);
  }

  /**
   Created exactly one hour after the epoch, the left tick lands on the stored
   key one hour and the right one on no key: `getAt` throws.
   */
  lemma RequireThrowsAtOneHour(time: int)
    requires Horizon < time <= 2 * Horizon
    ensures GetAt(Require(Horizon), time) == TypeError
  {
    RequireBracket(Horizon, time);
    var u := Require(Horizon);
    assert Horizon in u.res && 2 * Horizon !in u.res;
    assert "cpu" in u.res[Horizon];
  }
}
