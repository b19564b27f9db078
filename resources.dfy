/**
 Named resource quantities (class `Resource` of src/models.ts): each entry is a
 number or a vector of numbers, and the arithmetic works entry by entry,
 broadcasting a number against a vector. Numbers are modelled as reals.
 */
module Resources {
  import opened Utils

  datatype Val = Scalar(x: real) | Vec(xs: seq<real>)

  /** An `IResource`: resource name to value. */
  type Resource = map<string, Val>

  /** The argument of `Resource.map`: another resource, or a plain number (as `mul` passes). */
  datatype Operand = Res(r: Resource) | Num(n: real)

  function Plus(a: real, b: real): real { a + b }
  function Minus(a: real, b: real): real { a - b }
  function Times(a: real, b: real): real { a * b }

  /** `c[i] || 0`: an element past the end of the vector reads as 0. */
  function Elem(xs: seq<real>, i: int): real
  {
    if 0 <= i < |xs| then xs[i] else 0.0
  }

  /**
   `self[key]` as `mapVal` sees it. A missing entry is `undefined`, which is not
   an array and reads as `0` through `a || 0`: it behaves exactly as the number 0.
   */
  function Get(r: Resource, key: string): Val
  {
    if key in r then r[key] else Scalar(0.0)
  }

  /**
   Element `i` of the right-hand operand as `mapVal` reads it: a number stands
   for every element (`Array(a.length).fill(b)`), and an element past the end of
   a vector reads as 0.
   */
  function At(b: Val, i: int): real
  {
    if b.Vec? then Elem(b.xs, i) else b.x
  }

  /** The first `n` elements of `xs.map((_, i) => f(xs[i], c[i] || 0))`. */
  function Zip(xs: seq<real>, b: Val, f: (real, real) -> real, n: nat): (r: seq<real>)
    requires n <= |xs|
    ensures |r| == n
    ensures forall i :: 0 <= i < n ==> r[i] == f(xs[i], At(b, i))
  {
    if n == 0 then [] else Zip(xs, b, f, n - 1) + [f(xs[n - 1], At(b, n - 1))]
  }

  /**
   `Resource.mapVal(a, b, f)`. A vector on the left fixes the length and
   broadcasts a number on the right; a number on the left against a vector
   calls `f(b[i], a)`, with the operands swapped.
   */
  function MapVal(a: Val, b: Val, f: (real, real) -> real): Val
  {
    match a
    case Vec(xs) => Vec(Zip(xs, b, f, |xs|))
    case Scalar(x) =>
      if b.Vec? then Vec(Zip(b.xs, a, f, |b.xs|))
      else Scalar(f(x, b.x))
  }

  /**
   `Resource.prototype.map(val, fn)`: the keys are those of `self`, plus those of
   `val` when it is a resource (`{ ...val, ...self }`); each value is `mapVal` of
   the two entries, a number operand standing for every entry.
   */
  function Map(self: Resource, val: Operand, f: (real, real) -> real): (r: Resource)
    ensures r.Keys == if val.Num? then self.Keys else self.Keys + val.r.Keys
    ensures forall k :: k in r ==>
      r[k] == MapVal(Get(self, k), if val.Num? then Scalar(val.n) else Get(val.r, k), f)
  {
    var all := if val.Num? then self else val.r + self;
    MapMap(all, (_: Val, key: string) =>
      MapVal(Get(self, key), if val.Num? then Scalar(val.n) else Get(val.r, key), f))
  }

  /** `add`: entry by entry over the names of both, a missing entry reading as 0. */
  function Add(self: Resource, val: Resource): (r: Resource)
    ensures r.Keys == self.Keys + val.Keys
    ensures forall k :: k in r ==> r[k] == MapVal(Get(self, k), Get(val, k), Plus)
  {
    Map(self, Res(val), Plus)
  }

  /** `sub`: entry by entry over the names of both, a missing entry reading as 0. */
  function Sub(self: Resource, val: Resource): (r: Resource)
    ensures r.Keys == self.Keys + val.Keys
    ensures forall k :: k in r ==> r[k] == MapVal(Get(self, k), Get(val, k), Minus)
  {
    Map(self, Res(val), Minus)
  }

  /** `mul`: every entry of `self` scaled by the number. */
  function Mul(self: Resource, val: real): (r: Resource)
    ensures r.Keys == self.Keys
    ensures forall k :: k in r ==> r[k] == MapVal(self[k], Scalar(val), Times)
  {
    Map(self, Num(val), Times)
  }

  predicate NonNegative(v: Val)
  {
    match v
    case Scalar(x) => x >= 0.0
    case Vec(xs) => forall i :: 0 <= i < |xs| ==> xs[i] >= 0.0
  }

  /** `valid()`: every number, and every element of every vector, is at least 0. */
  predicate Valid(r: Resource)
  {
    forall k :: k in r ==> NonNegative(r[k])
  }

  // ---------------------------------------------------------------------
  // Properties of the arithmetic.

  /** A number meeting a vector is passed to `f` second, whichever side it was on. */
  lemma ScalarVectorSwapsOperands(x: real, ys: seq<real>, f: (real, real) -> real)
    ensures MapVal(Scalar(x), Vec(ys), f) == MapVal(Vec(ys), Scalar(x), f)
  {
  }

  /** So a number minus a vector subtracts the number from every element: `1 - [3]` is `[2]`. */
  lemma ScalarMinusVector(x: real, ys: seq<real>)
    ensures var r := MapVal(Scalar(x), Vec(ys), Minus);
      r.Vec? && |r.xs| == |ys| && forall i :: 0 <= i < |ys| ==> r.xs[i] == ys[i] - x
  {
    var r := MapVal(Scalar(x), Vec(ys), Minus);
    forall i | 0 <= i < |ys| ensures r.xs[i] == ys[i] - x {
      assert r.xs[i] == Minus(ys[i], x);
    }
  }

  /** A shorter right-hand vector is padded with zeros; a longer one is cut to the left's length. */
  lemma VectorsAlignOnLeft(xs: seq<real>, ys: seq<real>, f: (real, real) -> real)
    ensures var r := MapVal(Vec(xs), Vec(ys), f);
      && r.Vec? && |r.xs| == |xs|
      && (forall i :: 0 <= i < |xs| && i < |ys| ==> r.xs[i] == f(xs[i], ys[i]))
      && (forall i :: |ys| <= i < |xs| ==> r.xs[i] == f(xs[i], 0.0))
  {
  }

  /** `add` and `sub` keep exactly the union of both operands' keys; `mul` keeps `self`'s keys. */
  lemma KeysOfArithmetic(a: Resource, b: Resource, n: real)
    ensures Add(a, b).Keys == a.Keys + b.Keys
    ensures Sub(a, b).Keys == a.Keys + b.Keys
    ensures Mul(a, n).Keys == a.Keys
  {
  }

  /** An entry missing from `self` reads as 0: adding gives the other entry unchanged. */
  lemma {:induction false} AddMissingEntry(a: Resource, b: Resource, k: string)
    requires k !in a && k in b
    ensures Add(a, b)[k] == b[k]
  {
    var r := MapVal(Scalar(0.0), b[k], Plus);
    if b[k].Vec? {
      assert r.xs == b[k].xs;
    }
  }

  /**
   Subtracting from a missing entry negates a number but, because the operands
   are swapped, leaves a vector positive.
   */
  lemma {:induction false} SubFromMissingEntry(a: Resource, b: Resource, k: string)
    requires k !in a && k in b
    ensures b[k].Scalar? ==> Sub(a, b)[k] == Scalar(-b[k].x)
    ensures b[k].Vec? ==> Sub(a, b)[k] == b[k]
  {
    var v := b[k];
    assert Get(a, k) == Scalar(0.0) && Get(b, k) == v;
    ZeroMinus(v);
  }

  /** `0 - v`: a number is negated, a vector comes back unchanged. */
  lemma ZeroMinus(v: Val)
    ensures MapVal(Scalar(0.0), v, Minus) == if v.Scalar? then Scalar(-v.x) else v
  {
    if v.Vec? {
      assert MapVal(Scalar(0.0), v, Minus).xs == v.xs;
    }
  }

  /** `mul(1)` gives an equal resource. */
  lemma {:induction false} MulOne(a: Resource)
    ensures Mul(a, 1.0) == a
  {
    forall k | k in a ensures Mul(a, 1.0)[k] == a[k] {
      var v := a[k];
      if v.Vec? {
        assert MapVal(v, Scalar(1.0), Times).xs == v.xs;
      }
    }
  }

  /** On one entry, adding then subtracting `b` restores `a` unless a number meets a vector. */
  lemma {:induction false} ValRoundTrip(a: Val, b: Val)
    ensures MapVal(MapVal(a, b, Plus), b, Minus) == a <==> !(a.Scalar? && b.Vec?)
  {
    var s := MapVal(a, b, Plus);
    var r := MapVal(s, b, Minus);
    if a.Vec? {
      var c := if b.Vec? then b.xs else seq(|a.xs|, _ => b.x);
      assert forall i :: 0 <= i < |a.xs| ==> s.xs[i] == a.xs[i] + Elem(c, i);
      assert forall i :: 0 <= i < |a.xs| ==> r.xs[i] == s.xs[i] - Elem(c, i);
      assert r.xs == a.xs;
    }
  }

  /** One entry of `a.add(b).sub(b)`. */
  lemma RoundTripEntry(a: Resource, b: Resource, k: string)
    requires k in a.Keys + b.Keys
    ensures k in Sub(Add(a, b), b)
    ensures Sub(Add(a, b), b)[k] == MapVal(MapVal(Get(a, k), Get(b, k), Plus), Get(b, k), Minus)
  {
    var s := Add(a, b);
    assert Get(s, k) == MapVal(Get(a, k), Get(b, k), Plus);
  }

  /** Keys of `b` inside those of `a`, and no number of `a` meeting a vector of `b`. */
  predicate Restorable(a: Resource, b: Resource)
  {
    b.Keys <= a.Keys && forall k :: k in b ==> !(a[k].Scalar? && b[k].Vec?)
  }

  lemma {:induction false} AddSubRestores(a: Resource, b: Resource)
    requires Restorable(a, b)
    ensures Sub(Add(a, b), b) == a
  {
    var s := Add(a, b);
    var r := Sub(s, b);
    assert s.Keys == a.Keys;
    assert r.Keys == a.Keys;
    forall k | k in a ensures r[k] == a[k] {
      RestoresEntry(a, b, k);
    }
  }

  lemma RestoresEntry(a: Resource, b: Resource, k: string)
    requires Restorable(a, b) && k in a
    ensures k in Sub(Add(a, b), b) && Sub(Add(a, b), b)[k] == a[k]
  {
    RoundTripEntry(a, b, k);
    ValRoundTrip(a[k], Get(b, k));
  }

  lemma {:induction false} AddSubDiffers(a: Resource, b: Resource)
    requires !Restorable(a, b)
    ensures Sub(Add(a, b), b) != a
  {
    var r := Sub(Add(a, b), b);
    KeysOfArithmetic(Add(a, b), b, 0.0);
    KeysOfArithmetic(a, b, 0.0);
    if b.Keys <= a.Keys {
      var k :| k in b && a[k].Scalar? && b[k].Vec?;
      RoundTripEntry(a, b, k);
      ValRoundTrip(a[k], b[k]);
    } else {
      var k :| k in b && k !in a;
      assert k in r;
    }
  }

  /**
   `a.add(b).sub(b)` equals `a` exactly when every key of `b` is a key of `a` and
   no key pairs a number in `a` with a vector in `b`.
   */
  lemma AddSubRoundTrip(a: Resource, b: Resource)
    ensures Sub(Add(a, b), b) == a <==>
      (b.Keys <= a.Keys && forall k :: k in b ==> !(a[k].Scalar? && b[k].Vec?))
  {
    if Restorable(a, b) { AddSubRestores(a, b); } else { AddSubDiffers(a, b); }
  }

  /** On one entry: the sum of two non-negative values is non-negative. */
  lemma {:induction false} NonNegativePlus(x: Val, y: Val)
    requires NonNegative(x) && NonNegative(y)
    ensures NonNegative(MapVal(x, y, Plus))
  {
    var s := MapVal(x, y, Plus);
    if x.Vec? {
      var c := if y.Vec? then y.xs else seq(|x.xs|, _ => y.x);
      forall i | 0 <= i < |x.xs| ensures s.xs[i] >= 0.0 {
        assert s.xs[i] == Plus(x.xs[i], Elem(c, i));
        assert Elem(c, i) >= 0.0;
      }
    } else if y.Vec? {
      forall i | 0 <= i < |y.xs| ensures s.xs[i] >= 0.0 {
        assert s.xs[i] == Plus(y.xs[i], x.x);
      }
    }
  }

  /** Adding two valid resources gives a valid resource. */
  lemma {:induction false} ValidAdd(a: Resource, b: Resource)
    requires Valid(a) && Valid(b)
    ensures Valid(Add(a, b))
  {
    var r := Add(a, b);
    forall k | k in r ensures NonNegative(r[k]) {
      assert r[k] == MapVal(Get(a, k), Get(b, k), Plus);
      NonNegativePlus(Get(a, k), Get(b, k));
    }
  }

  /** Scaling a valid resource by a non-negative number keeps it valid. */
  lemma {:induction false} ValidMul(a: Resource, n: real)
    requires Valid(a) && n >= 0.0
    ensures Valid(Mul(a, n))
  {
    var r := Mul(a, n);
    forall k | k in r ensures NonNegative(r[k]) {
      assert r[k] == MapVal(a[k], Scalar(n), Times);
      NonNegativeTimes(a[k], n);
    }
  }

  /** On one entry: a non-negative value scaled by a non-negative number is non-negative. */
  lemma NonNegativeTimes(v: Val, n: real)
    requires NonNegative(v) && n >= 0.0
    ensures NonNegative(MapVal(v, Scalar(n), Times))
  {
    var r := MapVal(v, Scalar(n), Times);
    if v.Vec? {
      forall i | 0 <= i < |v.xs| ensures r.xs[i] >= 0.0 {
        assert r.xs[i] == Times(v.xs[i], n);
      }
    }
  }

  predicate AllScalar(r: Resource)
  {
    forall k :: k in r ==> r[k].Scalar?
  }

  /**
   For resources of plain numbers, `capacity.sub(demand).valid()` holds exactly
   when, under every name in either, the demand is at most the capacity
   (a name missing on one side counting as 0).
   */
  lemma {:induction false} FitsWithin(capacity: Resource, demand: Resource)
    requires AllScalar(capacity) && AllScalar(demand)
    ensures Valid(Sub(capacity, demand)) <==>
      forall k :: k in capacity.Keys + demand.Keys ==> Get(demand, k).x <= Get(capacity, k).x
  {
    var r := Sub(capacity, demand);
    forall k | k in r ensures NonNegative(r[k]) <==> Get(demand, k).x <= Get(capacity, k).x {
      assert Get(capacity, k).Scalar? && Get(demand, k).Scalar?;
      SubScalarEntry(capacity, demand, k);
    }
  }

  /** One entry of the difference of two resources, where both sides are numbers. */
  lemma SubScalarEntry(capacity: Resource, demand: Resource, k: string)
    requires k in Sub(capacity, demand)
    requires Get(capacity, k).Scalar? && Get(demand, k).Scalar?
    ensures Sub(capacity, demand)[k] == Scalar(Get(capacity, k).x - Get(demand, k).x)
  {
    assert Sub(capacity, demand)[k] == MapVal(Get(capacity, k), Get(demand, k), Minus);
  }
}
