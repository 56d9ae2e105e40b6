/** Which calls the wrapper accepts: the tensor must accept the same call on the product, and the factors
    must be of the kind that the wrapper can handle. */
module LoraAccepts {
  import opened Wrappers
  import opened Tensor
  import opened TensorLaws
  import opened Lora
  import opened LoraJoins
  import LoraTuples

  // ----- the size that is left open -----

  /** The request with its open size filled in. */
  function Filled(shape: seq<int>, k: nat): (r: seq<int>)
    ensures |r| == |shape| && forall i :: 0 <= i < |shape| ==> r[i] == if shape[i] == -1 then k else shape[i]
  {
    seq(|shape|, i requires 0 <= i < |shape| => if shape[i] == -1 then k as int else shape[i])
  }

  /** Every size that is given is positive. */
  predicate PositiveSizes(shape: seq<int>) {
    forall i :: 0 <= i < |shape| ==> shape[i] == -1 || shape[i] > 0
  }

  function Multiplied(s: seq<int>): int {
    if s == [] then 1 else s[0] * Multiplied(s[1..])
  }

  lemma {:induction false} NoHoles(shape: seq<int>, k: nat)
    requires Holes(shape) == 0
    ensures Multiplied(Filled(shape, k)) == ProdInt(shape) && Filled(shape, k) == shape && -1 !in shape
    decreases |shape|
  {
    if shape != [] {
      NoHoles(shape[1..], k);
      assert Filled(shape, k)[1..] == Filled(shape[1..], k);
    }
  }

  /** The count of open sizes: none, at most one. */
  lemma {:induction false} HolesExactly(shape: seq<int>)
    ensures Holes(shape) == 0 <==> -1 !in shape
    ensures Holes(shape) <= 1 <==> forall i, j :: 0 <= i < j < |shape| ==> !(shape[i] == -1 && shape[j] == -1)
    decreases |shape|
  {
    if shape != [] {
      var x, rest := shape[0], shape[1..];
      HolesExactly(rest);
      hide Holes;
      assert shape == [x] + rest;
      HolesStep(x, rest);
      if x == -1 {
        assert Holes(rest) == 0 <==> forall j :: 0 < j < |shape| ==> shape[j] != -1;
      }
    }
  }

  lemma HolesStep(x: int, rest: seq<int>)
    ensures Holes([x] + rest) == (if x == -1 then 1 else 0) + Holes(rest)
  {
    assert ([x] + rest)[1..] == rest;
  }

  lemma {:induction false} OneHole(shape: seq<int>, k: nat)
    requires Holes(shape) == 1
    ensures Multiplied(Filled(shape, k)) == k * ProdInt(shape) && -1 in shape
    decreases |shape|
  {
    assert Filled(shape, k)[1..] == Filled(shape[1..], k);
    var p := ProdInt(shape[1..]);
    if shape[0] == -1 {
      NoHoles(shape[1..], k);
      assert ProdInt(shape) == 1 * p;
    } else {
      OneHole(shape[1..], k);
      assert shape[0] * (k * p) == k * (shape[0] * p);
    }
  }

  lemma {:induction false} MultipliedLast(s: seq<int>, x: int)
    ensures Multiplied(s + [x]) == Multiplied(s) * x
    decreases |s|
  {
    if s == [] {
      assert s + [x] == [x] && [x][1..] == [];
    } else {
      MultipliedLast(s[1..], x);
      assert (s + [x])[1..] == s[1..] + [x];
      assert s[0] * (Multiplied(s[1..]) * x) == (s[0] * Multiplied(s[1..])) * x;
    }
  }

  lemma {:induction false} MultipliedIsProd(s: seq<int>)
    requires NonNegative(s)
    ensures Multiplied(s) == Prod(ToNats(s))
    decreases |s|
  {
    if s != [] {
      var k := |s| - 1;
      MultipliedIsProd(s[..k]);
      MultipliedLast(s[..k], s[k]);
      assert s[..k] + [s[k]] == s && ToNats(s)[..k] == ToNats(s[..k]);
    }
  }

  lemma {:induction false} GivenPositive(shape: seq<int>)
    requires PositiveSizes(shape)
    ensures ProdInt(shape) > 0
    decreases |shape|
  {
    if shape != [] {
      GivenPositive(shape[1..]);
      if shape[0] != -1 {
        ProductPositive(shape[0], ProdInt(shape[1..]));
      }
    }
  }

  lemma ProductPositive(x: int, y: int)
    requires x > 0 && y > 0
    ensures x * y > 0
  {
  }

  lemma Quotient(total: nat, given: int, k: nat)
    requires given > 0
    ensures total % given == 0 && total / given == k <==> k * given == total
  {
    if k * given == total {
      DivRow(k, 0, given);
    }
  }

  /** The open size is filled with `k` exactly when that gives as many entries as there are. */
  lemma ResolveExactly(orig: seq<nat>, shape: seq<int>, k: nat)
    requires Holes(shape) == 1 && PositiveSizes(shape)
    ensures Resolve(orig, shape) == Ok(Filled(shape, k)) <==> Prod(ToNats(Filled(shape, k))) == Prod(orig)
  {
    var total, given := Prod(orig), ProdInt(shape);
    GivenPositive(shape);
    OneHole(shape, k);
    MultipliedIsProd(Filled(shape, k));
    Quotient(total, given, k);
    var i :| 0 <= i < |shape| && shape[i] == -1;
    assert Resolve(orig, shape) == Ok(Filled(shape, k)) ==> Filled(shape, k)[i] == k;
    if total % given == 0 && total / given == k {
      assert Resolve(orig, shape).value == Filled(shape, k);
    }
  }

  /** A request without an open size stands for itself. */
  lemma ResolveNothing(orig: seq<nat>, shape: seq<int>)
    requires Holes(shape) == 0
    ensures Resolve(orig, shape) == Ok(shape)
  {
    NoHoles(shape, 0);
  }

  // ----- reshape -----

  lemma LeadOnes(l: Lora)
    requires Constructible(l.a, l.b) && LeadsAreOne(l.a.shape)
    ensures l.a.shape == Ones(|l.a.shape| - 2) + [Rank(l), l.a.shape[|l.a.shape| - 1]]
  {
  }

  lemma OnesTwo(n: nat, m: nat, rank: nat, cols: nat)
    ensures Prod(Ones(n) + [rank, cols]) == Prod(Ones(m) + [rank, cols])
  {
    hide Prod;
    ProdTwo(Ones(n), rank, cols);
    ProdTwo(Ones(m), rank, cols);
    ProdOnes(n);
    ProdOnes(m);
  }

  lemma RowsSame(x: seq<nat>, y: seq<nat>, cols: nat, rank: nat)
    requires Prod(x + [cols]) == Prod(y + [cols]) && cols > 0
    ensures Prod(x + [rank]) == Prod(y + [rank])
  {
    hide Prod;
    ProdSnoc(x, cols);
    ProdSnoc(y, cols);
    CancelFactor(Prod(x), Prod(y), cols);
    ProdSnoc(x, rank);
    ProdSnoc(y, rank);
  }

  lemma ReshapeToWorks(l: Lora, s: seq<nat>)
    requires Constructible(l.a, l.b) && |s| >= 2
    requires Prod(Ones(|s| - 2) + [Rank(l), l.a.shape[|l.a.shape| - 1]]) == Prod(l.a.shape)
    requires Prod(s[..|s| - 1] + [Rank(l)]) == Prod(l.b.shape)
    ensures ReshapeTo(l, s).Ok?
  {
    hide Prod;
  }

  lemma ReshapeWorks(l: Lora, s: seq<nat>)
    requires Meaningful(l) && LeadsAreOne(l.a.shape) && |s| >= 2
    requires s[|s| - 1] == l.a.shape[|l.a.shape| - 1] > 0 && Prod(s) == Prod(Shape(l))
    ensures ReshapeTo(l, s).Ok?
  {
    var n, m := |l.a.shape|, |s|;
    var rank, cols := Rank(l), l.a.shape[n - 1];
    LeadOnes(l);
    SplitShapes(l);
    assert s == s[..m - 1] + [cols];
    hide Prod, ReshapeTo;
    OnesTwo(n - 2, m - 2, rank, cols);
    RowsSame(s[..m - 1], l.b.shape[..n - 1], cols, rank);
    ReshapeToWorks(l, s);
  }

  lemma ReshapeLeads(l: Lora, s: seq<nat>)
    requires Meaningful(l) && Rank(l) > 0 && |s| >= 2 && ReshapeTo(l, s).Ok?
    requires l.a.shape[|l.a.shape| - 1] > 0
    ensures LeadsAreOne(l.a.shape)
  {
    ReshapeA(l, ReshapeTo(l, s).value, s, 0, 0);
  }

  /** The request asks for as many entries as there are. */
  predicate SizesFit(orig: seq<nat>, shape: seq<int>) {
    var s := Resolve(orig, shape);
    s.Ok? && NonNegative(s.value) && Prod(ToNats(s.value)) == Prod(orig)
  }

  lemma DenseReshapeIs(t: Tensor, shape: seq<int>)
    requires Holes(shape) <= 1
    ensures DenseReshape(t, shape).Ok? <==> SizesFit(t.shape, shape)
    ensures DenseReshape(t, shape).Ok? ==>
              DenseReshape(t, shape).value.shape == ToNats(Resolve(t.shape, shape).value)
  {
    hide Resolve;
  }

  lemma ResolveLength(orig: seq<nat>, shape: seq<int>)
    ensures Resolve(orig, shape).Ok? ==> |Resolve(orig, shape).value| == |shape|
  {
  }

  /** The request as the wrapper reads it. */
  predicate KeepsRows(l: Lora, shape: seq<int>)
    requires Constructible(l.a, l.b)
  {
    var s := Resolve(Shape(l), shape);
    ResolveLength(Shape(l), shape);
    |shape| >= 2 && s.Ok? && NonNegative(s.value) && s.value[|shape| - 1] == l.a.shape[|l.a.shape| - 1]
  }

  lemma LoraReshapeIs(l: Lora, shape: seq<int>)
    requires Constructible(l.a, l.b)
    ensures LoraReshape(l, shape).Ok? <==>
            KeepsRows(l, shape) && ReshapeTo(l, ToNats(Resolve(Shape(l), shape).value)).Ok?
  {
    ResolveLength(Shape(l), shape);
    hide Resolve, ReshapeTo;
  }

  lemma ReshapeToExactly(l: Lora, s: seq<nat>)
    requires Meaningful(l) && Rank(l) > 0 && l.a.shape[|l.a.shape| - 1] > 0
    requires |s| >= 2 && s[|s| - 1] == l.a.shape[|l.a.shape| - 1]
    ensures ReshapeTo(l, s).Ok? <==> LeadsAreOne(l.a.shape) && Prod(s) == Prod(Shape(l))
  {
    if ReshapeTo(l, s).Ok? {
      ReshapeLeads(l, s);
      ReshapeSizes(l, ReshapeTo(l, s).value, s);
    } else if LeadsAreOne(l.a.shape) && Prod(s) == Prod(Shape(l)) {
      ReshapeWorks(l, s);
    }
  }

  /** A weight with entries is reshaped exactly when its product can be, the new shape has at least two
      axes and keeps the row length, and there is a single matrix A. */
  lemma ReshapeAccepted(l: Lora, shape: seq<int>)
    requires Meaningful(l) && Rank(l) > 0 && l.a.shape[|l.a.shape| - 1] > 0 && Holes(shape) <= 1
    ensures LoraReshape(l, shape).Ok? <==>
            && |shape| >= 2 && LeadsAreOne(l.a.shape)
            && DenseReshape(Product(l), shape).Ok?
            && var s := DenseReshape(Product(l), shape).value.shape;
               |s| == |shape| && s[|shape| - 1] == l.a.shape[|l.a.shape| - 1]
  {
    hide LoraReshape, DenseReshape, ReshapeTo, Resolve, Prod, Product;
    DenseReshapeIs(Product(l), shape);
    ResolveLength(Shape(l), shape);
    LoraReshapeIs(l, shape);
    if KeepsRows(l, shape) {
      ReshapeToExactly(l, ToNats(Resolve(Shape(l), shape).value));
    }
  }

  // ----- permute and transpose -----

  /** Axis numbers beyond the last one start again at the first. */
  function Wrapped(dims: seq<int>, n: nat): (r: seq<int>)
    ensures |r| == |dims| && forall i :: 0 <= i < |dims| ==> r[i] == if dims[i] >= n then dims[i] - n else dims[i]
  {
    seq(|dims|, i requires 0 <= i < |dims| => if dims[i] >= n then dims[i] - n else dims[i])
  }

  /** The orders that the wrapper can handle: the row axis stays last and A is a single matrix, or a
      matrix is transposed. */
  predicate Handled(l: Lora, dims: seq<int>)
    requires Constructible(l.a, l.b)
  {
    var (n, m) := (|l.a.shape|, |dims|);
    || (m > 0 && (dims[m - 1] == -1 || dims[m - 1] == n - 1) && LeadsAreOne(l.a.shape))
    || (n == 2 && m == 2 && (dims[1] == -2 || dims[1] == 0) && (dims[0] == -1 || dims[0] == 1))
  }

  lemma PermuteIs(t: Tensor, dims: seq<int>)
    ensures Permute(t, dims).Ok? <==> IsPermutation(dims, |t.shape|)
    ensures Permute(t, dims).Ok? ==>
              && |Permute(t, dims).value.shape| == |t.shape|
              && forall i :: 0 <= i < |t.shape| ==> Permute(t, dims).value.shape[i] == t.shape[dims[i]]
  {
  }

  lemma AxesSame(dims: seq<int>, neg: seq<int>, n: nat)
    requires neg == seq(|dims|, i requires 0 <= i < |dims| => if dims[i] >= 0 then dims[i] - n else dims[i])
    ensures Axes(neg, n) == Axes(Wrapped(dims, n), n)
  {
  }

  /** An order of the axes is accepted exactly when, read around, the tensor accepts it and the wrapper
      can handle it. */
  lemma PermuteAccepted(l: Lora, dims: seq<int>)
    requires Meaningful(l)
    ensures LoraPermute(l, dims).Ok? <==>
            Handled(l, dims) && DensePermute(Product(l), Wrapped(dims, |l.a.shape|)).Ok?
  {
    var n, m := |l.a.shape|, |dims|;
    var neg := seq(m, i requires 0 <= i < m => if dims[i] >= 0 then dims[i] - n else dims[i]);
    AxesSame(dims, neg, n);
    var axes := Axes(neg, n);
    PermuteIs(l.a, axes);
    PermuteIs(l.b, axes);
    PermuteIs(Product(l), axes);
    hide Permute, Product, IsPermutation;
    if m > 0 {
      assert neg[m - 1] == -1 <==> dims[m - 1] == -1 || dims[m - 1] == n - 1;
    }
  }

  /** `transpose` exchanges two axes: every entry is found where the two coordinates are exchanged. */
  lemma TransposeSwaps(t: Tensor, i: int, j: int, x: nat, y: nat, idx: seq<nat>)
    requires Normal(i, |t.shape|) == Ok(x) && Normal(j, |t.shape|) == Ok(y) && Within(t.shape, idx)
    ensures DenseTranspose(t, i, j).Ok?
    ensures var swapped: seq<nat> := idx[x := idx[y]];
            var there: seq<nat> := swapped[y := idx[x]];
            DenseTranspose(t, i, j).value.at(there) == t.at(idx)
  {
    var n := |t.shape|;
    var dims := Swapped(n, i, j).value;
    SwappedIs(n, i, j, x, y);
    assert Axes(dims, n) == dims;
    PermuteMoves(t, dims, idx);
    var swapped: seq<nat> := idx[x := idx[y]];
    var there: seq<nat> := swapped[y := idx[x]];
    assert Moved(dims, idx) == there;
  }

  lemma SwappedIs(n: nat, i: int, j: int, x: nat, y: nat)
    requires Normal(i, n) == Ok(x) && Normal(j, n) == Ok(y)
    ensures Swapped(n, i, j).Ok? && IsPermutation(Swapped(n, i, j).value, n)
    ensures forall k :: 0 <= k < n ==> Swapped(n, i, j).value[k] == if k == x then y else if k == y then x else k
  {
    var dims := Swapped(n, i, j).value;
    forall d | 0 <= d < n ensures d in dims {
      assert dims[if d == x then y else if d == y then x else d] == d;
    }
  }

  // ----- stack and cat -----

  lemma StackIs(ts: seq<Tensor>)
    ensures Stack(ts).Ok? <==> ts != [] && forall i :: 0 <= i < |ts| ==> ts[i].shape == ts[0].shape
  {
  }

  /** Weights can be stacked exactly when all first factors have one shape, and all second ones. */
  lemma StackAccepted(ls: seq<Lora>)
    requires AllMeaningful(ls)
    ensures LoraStack(ls).Ok? <==>
            ls != [] && forall i :: 0 <= i < |ls| ==> ls[i].a.shape == ls[0].a.shape && ls[i].b.shape == ls[0].b.shape
  {
    StackIs(Firsts(ls));
    StackIs(Seconds(ls));
    if LoraStack(ls).Ok? {
      forall i | 0 <= i < |ls| ensures ls[i].a.shape == ls[0].a.shape && ls[i].b.shape == ls[0].b.shape {
        assert Firsts(ls)[i] == ls[i].a && Firsts(ls)[0] == ls[0].a;
        assert Seconds(ls)[i] == ls[i].b && Seconds(ls)[0] == ls[0].b;
      }
    }
    if Stack(Firsts(ls)).Ok? && Stack(Seconds(ls)).Ok? {
      var a, b := Stack(Firsts(ls)).value, Stack(Seconds(ls)).value;
      assert Constructible(ls[0].a, ls[0].b);
      assert a.shape == [|ls|] + ls[0].a.shape && b.shape == [|ls|] + ls[0].b.shape;
    }
  }

  /** The sizes behind the first axis agree. */
  predicate Aligns(ts: seq<Tensor>) {
    && ts != [] && ts[0].shape != []
    && forall i {:trigger ts[i]} :: 0 <= i < |ts| ==> ts[i].shape != [] && ts[i].shape[1..] == ts[0].shape[1..]
  }

  lemma AlignsUnfold(ts: seq<Tensor>)
    requires |ts| > 1
    ensures var k := |ts| - 1;
            Aligns(ts) <==>
            Aligns(ts[..k]) && ts[0].shape != [] && ts[k].shape != [] && ts[k].shape[1..] == ts[0].shape[1..]
  {
    var k := |ts| - 1;
    assert ts[..k][0] == ts[0];
    if Aligns(ts[..k]) && ts[0].shape != [] && ts[k].shape != [] && ts[k].shape[1..] == ts[0].shape[1..] {
      forall i | 0 <= i < |ts| ensures ts[i].shape != [] && ts[i].shape[1..] == ts[0].shape[1..] {
        if i < k { assert ts[..k][i] == ts[i]; }
      }
    }
  }

  lemma {:induction false} CatAllIs(ts: seq<Tensor>)
    ensures CatAll(ts).Ok? <==> Aligns(ts)
    ensures CatAll(ts).Ok? ==> CatAll(ts).value.shape != [] && CatAll(ts).value.shape[1..] == ts[0].shape[1..]
    decreases |ts|
  {
    if |ts| > 1 {
      var k := |ts| - 1;
      CatAllIs(ts[..k]);
      AlignsUnfold(ts);
      hide Aligns;
    }
  }

  /** Batches can be put together exactly when the sizes behind the first axis agree for both factors;
      matrices exactly when they have the same A. */
  lemma CatAccepted(ls: seq<Lora>)
    requires AllMeaningful(ls)
    ensures LoraCatAll(ls).Ok? <==>
            && ls != []
            && (if |ls[0].a.shape| > 2 then Aligns(Firsts(ls)) && Aligns(Seconds(ls)) else SharedA(ls))
  {
    if ls != [] {
      assert Meaningful(ls[0]);
      CatAllIs(Firsts(ls));
      CatAllIs(Seconds(ls));
      assert Firsts(ls)[0] == ls[0].a && Seconds(ls)[0] == ls[0].b;
      hide CatAll;
      if |ls[0].a.shape| > 2 {
        if Aligns(Firsts(ls)) && Aligns(Seconds(ls)) {
          JoinedConstructible(ls[0], CatAll(Firsts(ls)).value, CatAll(Seconds(ls)).value);
        }
      } else if SharedA(ls) {
        SharedAligns(ls);
        JoinedMatrix(ls[0], CatAll(Seconds(ls)).value);
      }
    }
  }

  lemma JoinedConstructible(l: Lora, a: Tensor, b: Tensor)
    requires Constructible(l.a, l.b) && |l.a.shape| > 2 && a.shape != [] && b.shape != []
    requires a.shape[1..] == l.a.shape[1..] && b.shape[1..] == l.b.shape[1..]
    ensures Constructible(a, b)
  {
    var n := |l.a.shape|;
    assert a.shape[n - 2] == a.shape[1..][n - 3] && b.shape[n - 1] == b.shape[1..][n - 2];
  }

  lemma JoinedMatrix(l: Lora, b: Tensor)
    requires Constructible(l.a, l.b) && |l.a.shape| == 2 && b.shape != [] && b.shape[1..] == l.b.shape[1..]
    ensures Constructible(l.a, b)
  {
    assert b.shape[1] == b.shape[1..][0];
  }

  lemma SharedAligns(ls: seq<Lora>)
    requires AllMeaningful(ls) && ls != [] && |ls[0].a.shape| == 2 && SharedA(ls)
    ensures Aligns(Seconds(ls))
  {
    var bs := Seconds(ls);
    forall i | 0 <= i < |ls| ensures bs[i].shape != [] && bs[i].shape[1..] == bs[0].shape[1..] {
      assert Meaningful(ls[i]) && Meaningful(ls[0]);
      assert ls[i].a.shape == ls[0].a.shape by {
        if i > 0 { SameShape(ls[0].a, ls[i].a); }
      }
      assert bs[i].shape[1..] == [ls[i].b.shape[1]];
    }
  }

  // ----- two lists of positions -----

  /** A matrix of which rows and columns were taken. */
  lemma TakeTwice(t: Tensor, rs: seq<nat>, cs: seq<nat>, i: nat, j: nat)
    requires |t.shape| == 2 && AllBelow(rs, t.shape[0]) && AllBelow(cs, t.shape[1]) && i < |rs| && j < |cs|
    ensures Take(Take(t, 1, cs), 0, rs).at([i, j]) == t.at([rs[i], cs[j]])
  {
    var x: seq<nat> := [i, j];
    var y: seq<nat> := x[0 := rs[x[0]]];
    assert y == [rs[i], j];
    assert y[1 := cs[y[1]]] == [rs[i], cs[j]];
  }

  lemma PairwiseIs(w: Tensor, r: nat, c: nat)
    requires w.shape == [r, c]
    ensures var p := LoraTuples.Pairwise(w);
            && (p.Ok? <==> r == c || r == 1 || c == 1)
            && (p.Ok? ==> p.value.shape == [if r == 1 then c else r])
            && (p.Ok? ==> forall i: nat ::
                  p.value.at([i]) == w.at([if r == 1 then 0 else i, if c == 1 then 0 else i]))
  {
    assert w.shape[..0] == [];
    forall i: nat ensures LoraTuples.PairAt([i], r, c) == [if r == 1 then 0 else i, if c == 1 then 0 else i] {
    }
  }

  /** Rows and columns of a matrix given as lists are read in pairs; a single entry goes with all of the
      other list, and lists of different lengths are refused. */
  lemma PairsExactly(t: Tensor, rs: seq<nat>, cs: seq<nat>)
    requires |t.shape| == 2 && AllBelow(rs, t.shape[0]) && AllBelow(cs, t.shape[1])
    ensures var p := LoraTuples.Pairwise(Take(Take(t, 1, cs), 0, rs));
            && (p.Ok? <==> |rs| == |cs| || |rs| == 1 || |cs| == 1)
            && (p.Ok? ==> p.value.shape == [if |rs| == 1 then |cs| else |rs|])
            && (p.Ok? ==> forall i: nat :: i < p.value.shape[0] ==>
                  p.value.at([i]) == t.at([rs[if |rs| == 1 then 0 else i], cs[if |cs| == 1 then 0 else i]]))
  {
    var w := Take(Take(t, 1, cs), 0, rs);
    assert w.shape == [|rs|, |cs|];
    hide Take, LoraTuples.Pairwise;
    PairwiseIs(w, |rs|, |cs|);
    var p := LoraTuples.Pairwise(w);
    if p.Ok? {
      forall i: nat | i < p.value.shape[0]
        ensures p.value.at([i]) == t.at([rs[if |rs| == 1 then 0 else i], cs[if |cs| == 1 then 0 else i]])
      {
        TakeTwice(t, rs, cs, if |rs| == 1 then 0 else i, if |cs| == 1 then 0 else i);
      }
    }
  }
}
