/** What the operations on dense tensors are for, apart from their definitions. */
module TensorLaws {
  import opened Wrappers
  import opened Tensor

  // Taking apart and putting together are inverse, `Reshape` keeps the lexicographic order of the entries, and a
  // sum can be cut anywhere.

  // ----- cutting along the first axis -----

  /** Two selections of rows, one after the other. */
  lemma CatTake(t: Tensor, js: seq<nat>, ks: seq<nat>)
    requires t.shape != [] && AllBelow(js, t.shape[0]) && AllBelow(ks, t.shape[0])
    ensures AllBelow(js + ks, t.shape[0])
    ensures var c := Cat(Take(t, 0, js), Take(t, 0, ks)); c.Ok? && Same(Take(t, 0, js + ks), c.value)
  {
    var c := Cat(Take(t, 0, js), Take(t, 0, ks)).value;
    var w := Take(t, 0, js + ks);
    assert w.shape == [|js| + |ks|] + t.shape[1..] == c.shape;
    forall idx | Within(w.shape, idx) ensures w.at(idx) == c.at(idx) {
      if idx[0] >= |js| {
        var u := [idx[0] - |js|] + idx[1..];
        assert u[0 := ks[u[0]]] == idx[0 := (js + ks)[idx[0]]];
      }
    }
  }

  /** A concatenation holds both operands, in order. */
  lemma CatHolds(t: Tensor, u: Tensor)
    requires Cat(t, u).Ok?
    ensures var c := Cat(t, u).value;
            && c.shape == [t.shape[0] + u.shape[0]] + t.shape[1..]
            && Same(Take(c, 0, Interval(0, t.shape[0])), t)
            && Same(Take(c, 0, Interval(t.shape[0], u.shape[0])), u)
  {
    var c := Cat(t, u).value;
    var first, second := Take(c, 0, Interval(0, t.shape[0])), Take(c, 0, Interval(t.shape[0], u.shape[0]));
    assert first.shape == t.shape;
    assert second.shape == u.shape;
    forall idx | Within(t.shape, idx) ensures first.at(idx) == t.at(idx) {
      assert idx[0 := Interval(0, t.shape[0])[idx[0]]] == idx;
    }
    forall idx | Within(u.shape, idx) ensures second.at(idx) == u.at(idx) {
      assert [idx[0]] + idx[1..] == idx;
    }
  }

  /** Cutting what was cut out. */
  lemma TakeTake(t: Tensor, js: seq<nat>, ks: seq<nat>, both: seq<nat>)
    requires t.shape != [] && AllBelow(js, t.shape[0]) && AllBelow(ks, |js|)
    requires |both| == |ks| && forall i :: 0 <= i < |ks| ==> both[i] == js[ks[i]]
    ensures AllBelow(both, t.shape[0])
    ensures Same(Take(Take(t, 0, js), 0, ks), Take(t, 0, both))
  {
    var w := Take(t, 0, both);
    assert Take(Take(t, 0, js), 0, ks).shape == w.shape;
    forall idx | Within(w.shape, idx) ensures Take(Take(t, 0, js), 0, ks).at(idx) == w.at(idx) {
      var u: seq<nat> := idx[0 := ks[idx[0]]];
      assert u[0 := js[u[0]]] == idx[0 := both[idx[0]]];
    }
  }

  // ----- stacking -----

  /** Each tensor is found again at its position of the new axis. */
  lemma IndexOfStack(ts: seq<Tensor>, i: nat)
    requires Stack(ts).Ok? && i < |ts|
    ensures Index(Stack(ts).value, i).Ok? && Same(Index(Stack(ts).value, i).value, ts[i])
  {
    var u := Select(Stack(ts).value, 0, i);
    assert u.shape == ts[0].shape == ts[i].shape;
    forall idx | Within(u.shape, idx) ensures u.at(idx) == ts[i].at(idx) {
      var v := idx[..0] + [i] + idx[0..];
      assert v[0] == i && v[1..] == idx;
    }
  }

  /** The positions of the first axis, one tensor each. */
  function Rows(t: Tensor): (ts: seq<Tensor>)
    requires t.shape != []
    ensures |ts| == t.shape[0]
    ensures forall i :: 0 <= i < |ts| ==> Index(t, i) == Ok(ts[i])
  {
    seq(t.shape[0], i requires 0 <= i < t.shape[0] => Index(t, i).value)
  }

  lemma RowShape(t: Tensor, i: nat)
    requires t.shape != [] && i < t.shape[0]
    ensures Rows(t)[i] == Select(t, 0, i) && Rows(t)[i].shape == t.shape[1..]
  {
    assert t.shape[..0] + t.shape[1..] == t.shape[1..];
  }

  lemma RowEntry(t: Tensor, idx: seq<nat>)
    requires t.shape != [] && Within(t.shape, idx)
    ensures Select(t, 0, idx[0]).at(idx[1..]) == t.at(idx)
  {
    var rest := idx[1..];
    assert rest[..0] + [idx[0]] + rest[0..] == idx;
  }

  lemma StackReads(ts: seq<Tensor>, idx: seq<nat>)
    requires Stack(ts).Ok? && idx != [] && idx[0] < |ts|
    ensures Stack(ts).value.at(idx) == ts[idx[0]].at(idx[1..])
  {
  }

  /** Taking the positions of an axis apart and stacking them again changes nothing. */
  lemma StackOfRows(t: Tensor)
    requires t.shape != [] && t.shape[0] > 0
    ensures Stack(Rows(t)).Ok? && Same(Stack(Rows(t)).value, t)
  {
    var ts := Rows(t);
    forall i | 0 <= i < |ts| ensures ts[i].shape == t.shape[1..] {
      RowShape(t, i);
    }
    var w := Stack(ts).value;
    assert w.shape == t.shape;
    hide Stack, Select, Index, Rows;
    forall idx | Within(t.shape, idx) ensures w.at(idx) == t.at(idx) {
      StackReads(ts, idx);
      RowShape(t, idx[0]);
      RowEntry(t, idx);
    }
  }

  // ----- permuting -----

  /** The index whose axis `i` is axis `dims[i]` of `idx`. */
  function Moved(dims: seq<int>, idx: seq<nat>): (r: seq<nat>)
    requires IsPermutation(dims, |idx|)
    ensures |r| == |idx| && forall i :: 0 <= i < |r| ==> r[i] == idx[dims[i]]
  {
    seq(|idx|, i requires 0 <= i < |idx| => idx[dims[i]])
  }

  /** Every entry moves to the permuted index. */
  lemma PermuteMoves(t: Tensor, dims: seq<int>, idx: seq<nat>)
    requires IsPermutation(dims, |t.shape|) && Within(t.shape, idx)
    ensures Permute(t, dims).Ok? && Permute(t, dims).value.shape == Moved(dims, t.shape)
    ensures Within(Moved(dims, t.shape), Moved(dims, idx))
    ensures Permute(t, dims).value.at(Moved(dims, idx)) == t.at(idx)
  {
    var n := |t.shape|;
    var u := Unpermute(dims, n, Moved(dims, idx));
    forall d | 0 <= d < n ensures u[d] == idx[d] {
      assert dims[Position(dims, d)] == d;
    }
    assert u == idx;
  }

  // ----- storage order -----

  /** Row-major order: the first axis in which two indices differ decides. */
  ghost predicate Before(x: seq<nat>, y: seq<nat>) {
    |x| == |y| && exists k :: 0 <= k < |x| && x[..k] == y[..k] && x[k] < y[k]
  }

  lemma FlatStep(r: nat, q: nat, c: nat, d: nat, cols: nat)
    requires c < cols && (r < q || (r == q && c < d))
    ensures r * cols + c < q * cols + d
  {
    if r < q {
      MulMono(r + 1, q, cols);
      assert (r + 1) * cols == r * cols + cols;
    }
  }

  lemma FlatUnfolds(shape: seq<nat>, idx: seq<nat>, n: nat)
    requires |idx| == |shape| == n + 1
    ensures Flat(shape, idx) == Flat(shape[..n], idx[..n]) * shape[n] + idx[n]
  {
  }

  lemma {:induction false} FlatInOrderAt(shape: seq<nat>, x: seq<nat>, y: seq<nat>, k: nat)
    requires Within(shape, x) && Within(shape, y) && k < |x| && x[..k] == y[..k] && x[k] < y[k]
    ensures Flat(shape, x) < Flat(shape, y)
    decreases |shape|
  {
    hide Flat;
    var n := |shape| - 1;
    FlatUnfolds(shape, x, n);
    FlatUnfolds(shape, y, n);
    if k < n {
      assert x[..n][..k] == x[..k] && y[..n][..k] == y[..k];
      FlatInOrderAt(shape[..n], x[..n], y[..n], k);
    }
    FlatStep(Flat(shape[..n], x[..n]), Flat(shape[..n], y[..n]), x[n], y[n], shape[n]);
  }

  /** The storage position follows row-major order. */
  lemma FlatInOrder(shape: seq<nat>, x: seq<nat>, y: seq<nat>)
    requires Within(shape, x) && Within(shape, y) && Before(x, y)
    ensures Flat(shape, x) < Flat(shape, y)
  {
    var k :| 0 <= k < |x| && x[..k] == y[..k] && x[k] < y[k];
    FlatInOrderAt(shape, x, y, k);
  }

  /** Positions and indices name each other. */
  lemma {:induction false} FlatOfUnflat(shape: seq<nat>, f: nat)
    requires f < Prod(shape)
    ensures Flat(shape, Unflat(shape, f)) == f
    decreases |shape|
  {
    if shape != [] {
      var k := |shape| - 1;
      var m := shape[k];
      UnflatWithin(shape, f);
      var idx := Unflat(shape, f);
      assert idx[k] < m;
      assert idx[..k] == Unflat(shape[..k], f / m);
      RowInside(f, Prod(shape[..k]), m);
      FlatOfUnflat(shape[..k], f / m);
    } else {
      assert f == 0;
    }
  }

  lemma RowInside(f: nat, rows: nat, cols: nat)
    requires f < rows * cols && cols > 0
    ensures f / cols < rows
  {
    assert f == (f / cols) * cols + f % cols;
    if f / cols >= rows {
      MulMono(rows, f / cols, cols);
    }
  }

  lemma {:induction false} UnflatOfFlat(shape: seq<nat>, idx: seq<nat>)
    requires Within(shape, idx)
    ensures Unflat(shape, Flat(shape, idx)) == idx
    decreases |shape|
  {
    if shape != [] {
      var k := |shape| - 1;
      UnflatOfFlat(shape[..k], idx[..k]);
      UnflatSnoc(shape[..k], shape[k], Flat(shape[..k], idx[..k]), idx[k]);
      assert shape[..k] + [shape[k]] == shape && idx[..k] + [idx[k]] == idx;
    }
  }

  /** Reshaping keeps the entry at every storage position. */
  lemma ReshapeKeepsOrder(t: Tensor, shape: seq<nat>, idx: seq<nat>, jdx: seq<nat>)
    requires Reshape(t, shape).Ok? && Within(t.shape, idx) && Within(shape, jdx)
    requires Flat(t.shape, idx) == Flat(shape, jdx)
    ensures Reshape(t, shape).value.shape == shape
    ensures Reshape(t, shape).value.at(jdx) == t.at(idx)
  {
    UnflatOfFlat(t.shape, idx);
  }

  lemma ReshapeBack(t: Tensor, shape: seq<nat>)
    requires Prod(shape) == Prod(t.shape)
    ensures var u := Reshape(t, shape);
            u.Ok? && Reshape(u.value, t.shape).Ok? && Same(Reshape(u.value, t.shape).value, t)
  {
    var u := Reshape(t, shape).value;
    var v := Reshape(u, t.shape).value;
    forall idx | Within(t.shape, idx) ensures v.at(idx) == t.at(idx) {
      var f := Flat(t.shape, idx);
      FlatBound(t.shape, idx);
      UnflatWithin(shape, f);
      FlatOfUnflat(shape, f);
      UnflatOfFlat(t.shape, idx);
    }
  }

  // ----- slices -----

  /** A slice stands for every `step`-th position of its range, in order. */
  lemma {:induction false} SteppedExactly(lo: nat, hi: nat, step: nat)
    requires step > 0
    ensures var js := Stepped(lo, hi, step);
            && (forall i :: 0 <= i < |js| ==> js[i] == lo + i * step)
            && lo + |js| * step >= hi
    decreases hi - lo
  {
    if lo < hi {
      SteppedExactly(lo + step, hi, step);
      var js, rest := Stepped(lo, hi, step), Stepped(lo + step, hi, step);
      assert js == [lo] + rest;
      forall i | 0 <= i < |js| ensures js[i] == lo + i * step {
        if i > 0 {
          assert js[i] == rest[i - 1] == lo + step + (i - 1) * step;
          assert step + (i - 1) * step == i * step;
        }
      }
      assert step + |rest| * step == (|rest| + 1) * step;
    }
  }

  /** A bound inside the axis means the index it is; beyond either end it means that end. */
  lemma BoundsExactly(i: int, size: nat)
    ensures Normal(i, size).Ok? ==> Clipped(i, size) == Normal(i, size).value
    ensures i >= size ==> Clipped(i, size) == size
    ensures i < -(size as int) ==> Clipped(i, size) == 0
  {
  }

  // ----- sums -----

  /** A sum can be cut anywhere. */
  lemma {:induction false} SumSplits(m: nat, n: nat, f: nat -> real)
    ensures Sum(m + n, f) == Sum(m, f) + Sum(n, (k: nat) => f(m + k))
  {
    if n > 0 {
      SumSplits(m, n - 1, f);
    }
  }
}
