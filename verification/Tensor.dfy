/** Dense tensors: a shape and an entry for every index inside it, with the operations that
    the LoRA wrapper is meant to imitate. Storage is row-major; it shows only in `Reshape`,
    which goes through the mixed-radix number of an index (`Flat`) and back (`Unflat`). Entries
    are real numbers, and what lies outside the shape is never compared: `Same` looks at equal
    shapes and at the entries within them. Each operation has a lemma that it respects `Same`. */
module Tensor {
  import opened Wrappers

  datatype Tensor = Tensor(shape: seq<nat>, at: seq<nat> -> real)

  predicate Within(shape: seq<nat>, idx: seq<nat>) {
    |idx| == |shape| && forall i :: 0 <= i < |shape| ==> idx[i] < shape[i]
  }

  ghost predicate Same(t: Tensor, u: Tensor) {
    t.shape == u.shape && forall idx :: Within(t.shape, idx) ==> t.at(idx) == u.at(idx)
  }

  // ----- row-major positions -----

  function Prod(shape: seq<nat>): nat {
    if shape == [] then 1 else Prod(shape[..|shape| - 1]) * shape[|shape| - 1]
  }

  /** Position of an index in storage: the last axis runs fastest. */
  function Flat(shape: seq<nat>, idx: seq<nat>): nat
    requires |idx| == |shape|
  {
    if shape == [] then 0
    else
      var k := |shape| - 1;
      Flat(shape[..k], idx[..k]) * shape[k] + idx[k]
  }

  function Unflat(shape: seq<nat>, f: nat): (idx: seq<nat>)
    ensures |idx| == |shape|
    decreases |shape|
  {
    if shape == [] then []
    else
      var k := |shape| - 1;
      var m := if shape[k] == 0 then 1 else shape[k];
      Unflat(shape[..k], f / m) + [f % m]
  }

  lemma {:induction false} FlatBound(shape: seq<nat>, idx: seq<nat>)
    requires Within(shape, idx)
    ensures Flat(shape, idx) < Prod(shape)
  {
    if shape != [] {
      var k := |shape| - 1;
      FlatBound(shape[..k], idx[..k]);
      RowBound(Flat(shape[..k], idx[..k]), Prod(shape[..k]), idx[k], shape[k]);
    }
  }

  lemma RowBound(r: nat, rows: nat, c: nat, cols: nat)
    requires r < rows && c < cols
    ensures r * cols + c < rows * cols
  {
    assert r * cols + cols == (r + 1) * cols;
    MulMono(r + 1, rows, cols);
  }

  lemma MulMono(a: nat, b: nat, c: nat)
    requires a <= b
    ensures a * c <= b * c
  {
    assert b * c == a * c + (b - a) * c;
  }

  lemma DivRow(r: nat, c: nat, cols: nat)
    requires c < cols
    ensures (r * cols + c) / cols == r && (r * cols + c) % cols == c
  {
    var x := r * cols + c;
    var q, m := x / cols, x % cols;
    assert x == q * cols + m && m < cols;
    if q < r {
      assert r * cols == q * cols + (r - q) * cols;
      MulMono(1, r - q, cols);
    } else if q > r {
      assert q * cols == r * cols + (q - r) * cols;
      MulMono(1, q - r, cols);
    }
  }

  lemma FlatSnoc(shape: seq<nat>, m: nat, idx: seq<nat>, c: nat)
    requires |idx| == |shape|
    ensures Flat(shape + [m], idx + [c]) == Flat(shape, idx) * m + c
  {
    assert (shape + [m])[..|shape|] == shape && (idx + [c])[..|idx|] == idx;
  }

  lemma UnflatSnoc(shape: seq<nat>, m: nat, r: nat, c: nat)
    requires c < m
    ensures Unflat(shape + [m], r * m + c) == Unflat(shape, r) + [c]
  {
    DivRow(r, c, m);
    assert (shape + [m])[..|shape|] == shape;
  }

  lemma ProdSnoc(shape: seq<nat>, m: nat)
    ensures Prod(shape + [m]) == Prod(shape) * m
  {
    assert (shape + [m])[..|shape|] == shape;
  }

  lemma {:induction false} UnflatWithin(shape: seq<nat>, f: nat)
    requires f < Prod(shape)
    ensures Within(shape, Unflat(shape, f))
    decreases |shape|
  {
    if shape != [] {
      var k := |shape| - 1;
      var m := shape[k];
      assert m > 0 by { if m == 0 { assert Prod(shape[..k]) * m == 0; } }
      assert f / m < Prod(shape[..k]) by {
        assert f == (f / m) * m + f % m;
        if f / m >= Prod(shape[..k]) { MulMono(Prod(shape[..k]), f / m, m); }
      }
      UnflatWithin(shape[..k], f / m);
    }
  }

  lemma {:induction false} UnflatZero(shape: seq<nat>)
    ensures Unflat(shape, 0) == Zeros(|shape|)
    decreases |shape|
  {
    if shape != [] {
      UnflatZero(shape[..|shape| - 1]);
    }
  }

  function Zeros(n: nat): (s: seq<nat>)
    ensures |s| == n && forall i :: 0 <= i < n ==> s[i] == 0
  {
    seq(n, _ => 0)
  }

  function Ones(n: nat): (s: seq<nat>)
    ensures |s| == n && forall i :: 0 <= i < n ==> s[i] == 1
  {
    seq(n, _ => 1)
  }

  lemma {:induction false} FlatZeros(shape: seq<nat>)
    ensures Flat(shape, Zeros(|shape|)) == 0
    decreases |shape|
  {
    if shape != [] {
      var k := |shape| - 1;
      assert Zeros(|shape|)[..k] == Zeros(k);
      FlatZeros(shape[..k]);
    }
  }

  lemma {:induction false} ProdOnes(n: nat)
    ensures Prod(Ones(n)) == 1
  {
    if n > 0 {
      assert Ones(n)[..n - 1] == Ones(n - 1);
      ProdOnes(n - 1);
    }
  }

  lemma FactorsOfOne(p: nat, m: nat)
    requires p * m == 1
    ensures p == 1 && m == 1
  {
    if p > 1 && m > 0 {
      MulMono(2, p, m);
    }
  }

  /** A product is one only if every factor is. */
  lemma {:induction false} ProdIsOne(shape: seq<nat>)
    requires Prod(shape) == 1
    ensures forall i :: 0 <= i < |shape| ==> shape[i] == 1
    decreases |shape|
  {
    if shape != [] {
      var k := |shape| - 1;
      var p, m := Prod(shape[..k]), shape[k];
      assert p * m == 1;
      FactorsOfOne(p, m);
      ProdIsOne(shape[..k]);
    }
  }

  // ----- operations -----

  datatype Failure = NotImplemented | AssertionFailed | TorchError

  type Outcome<+T> = Result<T, Failure>

  /** `reshape` keeps the storage order. */
  function Reshape(t: Tensor, shape: seq<nat>): Outcome<Tensor> {
    if Prod(shape) != Prod(t.shape) then Err(TorchError)
    else Ok(Tensor(shape, (idx: seq<nat>) => if |idx| == |shape| then t.at(Unflat(t.shape, Flat(shape, idx))) else 0.0))
  }

  predicate IsPermutation(dims: seq<int>, n: nat) {
    && |dims| == n
    && (forall i :: 0 <= i < n ==> 0 <= dims[i] < n)
    && (forall i, j :: 0 <= i < j < n ==> dims[i] != dims[j])
    && (forall d :: 0 <= d < n ==> d in dims)
  }

  function Position(dims: seq<int>, d: int): (i: nat)
    requires d in dims
    ensures i < |dims| && dims[i] == d
  {
    if dims[0] == d then 0 else 1 + Position(dims[1..], d)
  }

  /** The index of the original that a permuted index stands for. */
  function Unpermute(dims: seq<int>, n: nat, idx: seq<nat>): (r: seq<nat>)
    requires IsPermutation(dims, n) && |idx| == n
    ensures |r| == n && forall d :: 0 <= d < n ==> r[d] == idx[Position(dims, d)]
  {
    seq(n, d requires 0 <= d < n => idx[Position(dims, d)])
  }

  /** Axis `i` of the result is axis `dims[i]` of the original. */
  function Permute(t: Tensor, dims: seq<int>): Outcome<Tensor> {
    var n := |t.shape|;
    if !IsPermutation(dims, n) then Err(TorchError)
    else Ok(Tensor(seq(n, i requires 0 <= i < n => t.shape[dims[i]]),
                   (idx: seq<nat>) => if |idx| == n then t.at(Unpermute(dims, n, idx)) else 0.0))
  }

  predicate AllBelow(js: seq<nat>, size: nat) {
    forall i :: 0 <= i < |js| ==> js[i] < size
  }

  /** Some positions of one axis, in the order given. */
  function Take(t: Tensor, d: nat, js: seq<nat>): (r: Tensor)
    requires d < |t.shape| && AllBelow(js, t.shape[d])
    ensures r.shape == t.shape[d := |js|]
  {
    Tensor(t.shape[d := |js|],
           (idx: seq<nat>) => if |idx| == |t.shape| && idx[d] < |js| then t.at(idx[d := js[idx[d]]]) else 0.0)
  }

  /** One position of an axis, which disappears. */
  function Select(t: Tensor, d: nat, j: nat): (r: Tensor)
    requires d < |t.shape| && j < t.shape[d]
    ensures r.shape == t.shape[..d] + t.shape[d + 1..]
  {
    Tensor(t.shape[..d] + t.shape[d + 1..],
           (idx: seq<nat>) => if d <= |idx| then t.at(idx[..d] + [j] + idx[d..]) else 0.0)
  }

  /** Python's index: negative counts from the end, out of range is an error. */
  function Normal(j: int, size: nat): Outcome<nat> {
    if 0 <= j < size then Ok(j) else if -(size as int) <= j < 0 then Ok(j + size) else Err(TorchError)
  }

  function Index(t: Tensor, j: int): Outcome<Tensor> {
    if t.shape == [] then Err(TorchError)
    else match Normal(j, t.shape[0])
         case Ok(i) => Ok(Select(t, 0, i))
         case Err(e) => Err(e)
  }

  /** Neighbouring positions. */
  function Interval(lo: nat, len: nat): (js: seq<nat>)
    ensures |js| == len && forall i :: 0 <= i < len ==> js[i] == lo + i
  {
    seq(len, i requires 0 <= i < len => lo + i)
  }

  /** A Python slice; a missing bound is the end of the axis. */
  datatype Range = Range(lo: Option<int>, hi: Option<int>, step: Option<int>)

  function Clipped(i: int, size: nat): (r: nat)
    ensures r <= size
  {
    var k := if i < 0 then i + size else i;
    if k < 0 then 0 else if k > size then size else k
  }

  function Stepped(lo: nat, hi: nat, step: nat): (js: seq<nat>)
    requires step > 0
    ensures AllBelow(js, hi)
    decreases hi - lo
  {
    if lo >= hi then [] else [lo] + Stepped(lo + step, hi, step)
  }

  /** The positions that a slice stands for; bounds are clipped, and the step must be positive. */
  function Sliced(r: Range, size: nat): (js: Outcome<seq<nat>>)
    ensures js.Ok? ==> AllBelow(js.value, size)
    ensures js.Ok? <==> r.step.None? || r.step.value > 0
  {
    var lo := if r.lo.Some? then Clipped(r.lo.value, size) else 0;
    var hi := if r.hi.Some? then Clipped(r.hi.value, size) else size;
    if r.step.None? then Ok(Stepped(lo, hi, 1))
    else if r.step.value <= 0 then Err(TorchError)
    else Ok(Stepped(lo, hi, r.step.value))
  }

  lemma {:induction false} SteppedOne(lo: nat, hi: nat)
    requires lo <= hi
    ensures Stepped(lo, hi, 1) == Interval(lo, hi - lo)
    decreases hi - lo
  {
    if lo < hi {
      SteppedOne(lo + 1, hi);
    }
  }

  /** The positions in a list, each read as an index. */
  function Normals(js: seq<int>, size: nat): (r: Outcome<seq<nat>>)
    ensures r.Ok? <==> forall i {:trigger js[i]} :: 0 <= i < |js| ==> Normal(js[i], size).Ok?
    ensures r.Ok? ==> |r.value| == |js| && AllBelow(r.value, size)
    ensures r.Ok? ==> forall i :: 0 <= i < |js| ==> r.value[i] == Normal(js[i], size).value
  {
    if exists i {:trigger js[i]} :: 0 <= i < |js| && Normal(js[i], size).Err? then Err(TorchError)
    else Ok(seq(|js|, i requires 0 <= i < |js| => Normal(js[i], size).value))
  }

  /** The index of one axis: a position, a slice, or a tensor that lists positions. */
  datatype Item = Single(j: int) | Part(range: Range) | Listed(js: seq<int>)

  /** What an index leaves of an axis that stays. */
  function Positions(item: Item, size: nat): (js: Outcome<seq<nat>>)
    requires !item.Single?
    ensures js.Ok? ==> AllBelow(js.value, size)
  {
    match item
    case Part(range) => Sliced(range, size)
    case Listed(js) => Normals(js, size)
  }

  function IndexAxis(t: Tensor, d: nat, item: Item): (r: Outcome<Tensor>)
    requires d < |t.shape|
    ensures r.Ok? ==> |r.value.shape| == if item.Single? then |t.shape| - 1 else |t.shape|
    ensures r.Ok? ==> r.value.shape[..d] == t.shape[..d]
  {
    if item.Single? then
      match Normal(item.j, t.shape[d])
      case Err(e) => Err(e)
      case Ok(i) => Ok(Select(t, d, i))
    else
      match Positions(item, t.shape[d])
      case Err(e) => Err(e)
      case Ok(js) => Ok(Take(t, d, js))
  }

  /** A tuple of indices for the first axes, taken from the last one backwards so that axes keep their
      numbers. */
  function IndexAxes(t: Tensor, items: seq<Item>): (r: Outcome<Tensor>)
    requires |items| <= |t.shape|
    decreases |items|
  {
    if items == [] then Ok(t)
    else
      var d := |items| - 1;
      match IndexAxis(t, d, items[d])
      case Err(e) => Err(e)
      case Ok(u) => IndexAxes(u, items[..d])
  }

  /** The size of axis `i` of `n`, for a shape that is aligned at the right and filled up with ones. */
  function SizeAt(shape: seq<nat>, n: nat, i: nat): nat
    requires |shape| <= n && i < n
  {
    if i < n - |shape| then 1 else shape[i - (n - |shape|)]
  }

  /** Two sizes go together if they are equal or one of them is one. */
  predicate Fits(f: seq<nat>, t: seq<nat>, n: nat)
    requires |f| <= n && |t| <= n
  {
    forall i :: 0 <= i < n ==> SizeAt(f, n, i) == 1 || SizeAt(t, n, i) == 1 || SizeAt(f, n, i) == SizeAt(t, n, i)
  }

  function Broadcast(f: seq<nat>, t: seq<nat>, n: nat): (s: seq<nat>)
    requires |f| <= n && |t| <= n
    ensures |s| == n
    ensures forall i :: 0 <= i < n ==> s[i] == if SizeAt(f, n, i) == 1 then SizeAt(t, n, i) else SizeAt(f, n, i)
  {
    seq(n, i requires 0 <= i < n => if SizeAt(f, n, i) == 1 then SizeAt(t, n, i) else SizeAt(f, n, i))
  }

  /** Where a broadcast operand is read. */
  function Aligned(shape: seq<nat>, idx: seq<nat>): (r: seq<nat>)
    requires |shape| <= |idx|
    ensures |r| == |shape|
    ensures forall i :: 0 <= i < |shape| ==> r[i] == if shape[i] == 1 then 0 else idx[|idx| - |shape| + i]
  {
    seq(|shape|, i requires 0 <= i < |shape| => if shape[i] == 1 then 0 else idx[|idx| - |shape| + i])
  }

  /** The entry-wise product, either operand broadcast to the other. */
  function Scale(t: Tensor, factor: Tensor): Outcome<Tensor> {
    var n := if |factor.shape| < |t.shape| then |t.shape| else |factor.shape|;
    if !Fits(factor.shape, t.shape, n) then Err(TorchError)
    else Ok(Tensor(Broadcast(factor.shape, t.shape, n),
                   (idx: seq<nat>) =>
                     if |idx| == n then factor.at(Aligned(factor.shape, idx)) * t.at(Aligned(t.shape, idx)) else 0.0))
  }

  /** Tensors of one shape along a new first axis. */
  function Stack(ts: seq<Tensor>): Outcome<Tensor> {
    if ts == [] || exists i :: 0 <= i < |ts| && ts[i].shape != ts[0].shape then Err(TorchError)
    else Ok(Tensor([|ts|] + ts[0].shape,
                   (idx: seq<nat>) => if idx != [] && idx[0] < |ts| then ts[idx[0]].at(idx[1..]) else 0.0))
  }

  /** Two tensors one after the other along the first axis. */
  function Cat(t: Tensor, u: Tensor): Outcome<Tensor> {
    if t.shape == [] || u.shape == [] || t.shape[1..] != u.shape[1..] then Err(TorchError)
    else Ok(Tensor([t.shape[0] + u.shape[0]] + t.shape[1..],
                   (idx: seq<nat>) =>
                     if idx == [] then 0.0
                     else if idx[0] < t.shape[0] then t.at(idx) else u.at([idx[0] - t.shape[0]] + idx[1..])))
  }

  /** A list of tensors one after the other. */
  function CatAll(ts: seq<Tensor>): Outcome<Tensor> {
    if ts == [] then Err(TorchError)
    else if |ts| == 1 then (if ts[0].shape == [] then Err(TorchError) else Ok(ts[0]))
    else match CatAll(ts[..|ts| - 1])
         case Err(e) => Err(e)
         case Ok(t) => Cat(t, ts[|ts| - 1])
  }

  // ----- sums -----

  function Sum(n: nat, f: nat -> real): real {
    if n == 0 then 0.0 else Sum(n - 1, f) + f(n - 1)
  }

  lemma {:induction false} SumSame(n: nat, f: nat -> real, g: nat -> real)
    requires forall k: nat :: k < n ==> f(k) == g(k)
    ensures Sum(n, f) == Sum(n, g)
  {
    if n > 0 {
      SumSame(n - 1, f, g);
    }
  }

  lemma {:induction false} SumScaled(n: nat, c: real, f: nat -> real, g: nat -> real)
    requires forall k: nat :: k < n ==> g(k) == c * f(k)
    ensures Sum(n, g) == c * Sum(n, f)
  {
    if n > 0 {
      SumScaled(n - 1, c, f, g);
      assert c * (Sum(n - 1, f) + f(n - 1)) == c * Sum(n - 1, f) + c * f(n - 1);
    }
  }

  // ----- equal inputs give equal results -----

  lemma ReshapeSame(t: Tensor, u: Tensor, shape: seq<nat>)
    requires Same(t, u) && Reshape(t, shape).Ok?
    ensures Reshape(u, shape).Ok? && Same(Reshape(t, shape).value, Reshape(u, shape).value)
  {
    forall idx | Within(shape, idx) ensures Reshape(t, shape).value.at(idx) == Reshape(u, shape).value.at(idx) {
      FlatBound(shape, idx);
      UnflatWithin(t.shape, Flat(shape, idx));
    }
  }

  lemma PermuteSame(t: Tensor, u: Tensor, dims: seq<int>)
    requires Same(t, u) && Permute(t, dims).Ok?
    ensures Permute(u, dims).Ok? && Same(Permute(t, dims).value, Permute(u, dims).value)
  {
    var n := |t.shape|;
    var p := Permute(t, dims).value;
    forall idx | Within(p.shape, idx) ensures p.at(idx) == Permute(u, dims).value.at(idx) {
      UnpermuteWithin(t, dims, idx);
    }
  }

  lemma UnpermuteWithin(t: Tensor, dims: seq<int>, idx: seq<nat>)
    requires Permute(t, dims).Ok? && Within(Permute(t, dims).value.shape, idx)
    ensures Within(t.shape, Unpermute(dims, |t.shape|, idx))
  {
    var n := |t.shape|;
    forall d | 0 <= d < n ensures Unpermute(dims, n, idx)[d] < t.shape[d] {
      var i := Position(dims, d);
      assert Permute(t, dims).value.shape[i] == t.shape[d];
    }
  }

  lemma TakeSame(t: Tensor, u: Tensor, d: nat, js: seq<nat>)
    requires Same(t, u) && d < |t.shape| && AllBelow(js, t.shape[d])
    ensures Same(Take(t, d, js), Take(u, d, js))
  {
    forall idx | Within(t.shape[d := |js|], idx) ensures Take(t, d, js).at(idx) == Take(u, d, js).at(idx) {
      assert idx[d] < |js|;
      assert Within(t.shape, idx[d := js[idx[d]]]);
    }
  }

  lemma SelectSame(t: Tensor, u: Tensor, d: nat, j: nat)
    requires Same(t, u) && d < |t.shape| && j < t.shape[d]
    ensures Same(Select(t, d, j), Select(u, d, j))
  {
    forall idx | Within(t.shape[..d] + t.shape[d + 1..], idx)
      ensures Select(t, d, j).at(idx) == Select(u, d, j).at(idx)
    {
      var v := idx[..d] + [j] + idx[d..];
      forall i | 0 <= i < |v| ensures v[i] < t.shape[i] {
        var s := t.shape[..d] + t.shape[d + 1..];
        assert i < d ==> s[i] == t.shape[i];
        assert i > d ==> s[i - 1] == t.shape[i] && v[i] == idx[i - 1];
      }
    }
  }

  lemma IndexSame(t: Tensor, u: Tensor, j: int)
    requires Same(t, u) && Index(t, j).Ok?
    ensures Index(u, j).Ok? && Same(Index(t, j).value, Index(u, j).value)
  {
    SelectSame(t, u, 0, Normal(j, t.shape[0]).value);
  }

  lemma IndexAxisSame(t: Tensor, u: Tensor, d: nat, item: Item)
    requires Same(t, u) && d < |t.shape| && IndexAxis(t, d, item).Ok?
    ensures IndexAxis(u, d, item).Ok? && Same(IndexAxis(t, d, item).value, IndexAxis(u, d, item).value)
  {
    if item.Single? {
      SelectSame(t, u, d, Normal(item.j, t.shape[d]).value);
    } else {
      TakeSame(t, u, d, Positions(item, t.shape[d]).value);
    }
  }

  lemma {:induction false} IndexAxesSame(t: Tensor, u: Tensor, items: seq<Item>)
    requires Same(t, u) && |items| <= |t.shape| && IndexAxes(t, items).Ok?
    ensures IndexAxes(u, items).Ok? && Same(IndexAxes(t, items).value, IndexAxes(u, items).value)
    decreases |items|
  {
    hide IndexAxis, Same;
    if items != [] {
      assert |t.shape| == |u.shape| by { SameShape(t, u); }
      var d := |items| - 1;
      IndexAxisSame(t, u, d, items[d]);
      IndexAxesSame(IndexAxis(t, d, items[d]).value, IndexAxis(u, d, items[d]).value, items[..d]);
    }
  }

  lemma SameShape(t: Tensor, u: Tensor)
    requires Same(t, u)
    ensures t.shape == u.shape
  {
  }

  lemma ScaleSame(t: Tensor, u: Tensor, factor: Tensor)
    requires Same(t, u) && Scale(t, factor).Ok?
    ensures Scale(u, factor).Ok? && Same(Scale(t, factor).value, Scale(u, factor).value)
  {
    var w := Scale(t, factor).value;
    var n := |w.shape|;
    forall idx | Within(w.shape, idx) ensures w.at(idx) == Scale(u, factor).value.at(idx) {
      var v := Aligned(t.shape, idx);
      forall i | 0 <= i < |t.shape| ensures v[i] < t.shape[i] {
        var k := n - |t.shape| + i;
        assert SizeAt(t.shape, n, k) == t.shape[i] && idx[k] < w.shape[k];
      }
    }
  }

  lemma CatSame(t: Tensor, u: Tensor, v: Tensor)
    requires Same(t, u) && Cat(t, v).Ok?
    ensures Cat(u, v).Ok? && Same(Cat(t, v).value, Cat(u, v).value)
  {
    var c := Cat(t, v).value;
    forall idx | Within(c.shape, idx) ensures c.at(idx) == Cat(u, v).value.at(idx) {
      if idx[0] < t.shape[0] {
        assert forall i :: 1 <= i < |idx| ==> c.shape[i] == t.shape[i];
        assert Within(t.shape, idx);
      }
    }
  }

  lemma CatSameRight(t: Tensor, u: Tensor, v: Tensor)
    requires Same(u, v) && Cat(t, u).Ok?
    ensures Cat(t, v).Ok? && Same(Cat(t, u).value, Cat(t, v).value)
  {
    var c := Cat(t, u).value;
    forall idx | Within(c.shape, idx) ensures c.at(idx) == Cat(t, v).value.at(idx) {
      if idx[0] >= t.shape[0] {
        var w := [idx[0] - t.shape[0]] + idx[1..];
        forall i | 0 <= i < |w| ensures w[i] < u.shape[i] {
          assert i > 0 ==> c.shape[i] == u.shape[i];
        }
      }
    }
  }

  ghost predicate AllSame(ts: seq<Tensor>, us: seq<Tensor>) {
    |ts| == |us| && forall i {:trigger ts[i]} {:trigger us[i]} :: 0 <= i < |ts| ==> Same(ts[i], us[i])
  }

  lemma {:induction false} CatAllSame(ts: seq<Tensor>, us: seq<Tensor>)
    requires AllSame(ts, us) && CatAll(ts).Ok?
    ensures CatAll(us).Ok? && Same(CatAll(ts).value, CatAll(us).value)
  {
    hide Cat, Same;
    if |ts| == 1 {
      assert Same(ts[0], us[0]);
      SameShape(ts[0], us[0]);
    } else {
      var k := |ts| - 1;
      assert Same(ts[k], us[k]);
      CatAllSame(ts[..k], us[..k]);
      var t, u := CatAll(ts[..k]).value, CatAll(us[..k]).value;
      CatSame(t, u, ts[k]);
      CatSameRight(u, ts[k], us[k]);
      SameTransitive(Cat(t, ts[k]).value, Cat(u, ts[k]).value, Cat(u, us[k]).value);
    }
  }

  lemma SameReflexive(t: Tensor)
    ensures Same(t, t)
  {
  }

  lemma SameSymmetric(t: Tensor, u: Tensor)
    requires Same(t, u)
    ensures Same(u, t)
  {
  }

  lemma SameTransitive(t: Tensor, u: Tensor, v: Tensor)
    requires Same(t, u) && Same(u, v)
    ensures Same(t, v)
  {
  }

  lemma StackSame(ts: seq<Tensor>, us: seq<Tensor>)
    requires AllSame(ts, us) && Stack(ts).Ok?
    ensures Stack(us).Ok? && Same(Stack(ts).value, Stack(us).value)
  {
    forall i | 0 <= i < |ts| ensures us[i].shape == us[0].shape {
      assert Same(ts[i], us[i]) && Same(ts[0], us[0]);
    }
    var w := Stack(ts).value;
    assert Same(ts[0], us[0]);
    forall idx | Within(w.shape, idx) ensures w.at(idx) == Stack(us).value.at(idx) {
      assert Same(ts[idx[0]], us[idx[0]]);
      assert Within(ts[idx[0]].shape, idx[1..]);
    }
  }
}
