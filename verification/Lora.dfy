/** A weight W = B * A kept as its two factors. Every operation works on the factors only and
    must mean the same as the operation on W itself. */
module Lora {
  import opened Wrappers
  import opened Tensor

  datatype Lora = Lora(a: Tensor, b: Tensor)

  /** The assertions of the constructor. */
  predicate Constructible(a: Tensor, b: Tensor) {
    |a.shape| == |b.shape| && |a.shape| >= 2 && a.shape[|a.shape| - 2] == b.shape[|b.shape| - 1]
  }

  function Make(a: Tensor, b: Tensor): Outcome<Lora> {
    if Constructible(a, b) then Ok(Lora(a, b)) else Err(AssertionFailed)
  }

  /** The factors can be multiplied: A's leading axes broadcast to B's. */
  predicate Meaningful(l: Lora) {
    Constructible(l.a, l.b) &&
    forall i :: 0 <= i < |l.a.shape| - 2 ==> l.a.shape[i] == 1 || l.a.shape[i] == l.b.shape[i]
  }

  function Rank(l: Lora): nat
    requires Constructible(l.a, l.b)
  {
    l.b.shape[|l.b.shape| - 1]
  }

  function Shape(l: Lora): (s: seq<nat>)
    requires Constructible(l.a, l.b)
    ensures |s| == |l.a.shape|
  {
    l.b.shape[..|l.b.shape| - 1] + [l.a.shape[|l.a.shape| - 1]]
  }

  function IndexB(idx: seq<nat>, k: nat): (r: seq<nat>)
    requires idx != []
    ensures |r| == |idx|
  {
    idx[..|idx| - 1] + [k]
  }

  function IndexA(shape: seq<nat>, idx: seq<nat>, k: nat): (r: seq<nat>)
    requires |idx| == |shape| && |shape| >= 2
    ensures |r| == |idx|
  {
    seq(|shape| - 2, i requires 0 <= i < |shape| - 2 => if shape[i] == 1 then 0 else idx[i]) + [k, idx[|idx| - 1]]
  }

  /** The summands of one entry of the product. */
  function Term(l: Lora, idx: seq<nat>): nat -> real
    requires Constructible(l.a, l.b) && |idx| == |l.a.shape|
  {
    (k: nat) => l.b.at(IndexB(idx, k)) * l.a.at(IndexA(l.a.shape, idx, k))
  }

  /** W = B * A. */
  function Product(l: Lora): (w: Tensor)
    requires Constructible(l.a, l.b)
    ensures w.shape == Shape(l)
  {
    Tensor(Shape(l), (idx: seq<nat>) => if |idx| == |l.a.shape| then Sum(Rank(l), Term(l, idx)) else 0.0)
  }

  // ----- reshape -----

  function ProdInt(s: seq<int>): int {
    if s == [] then 1 else (if s[0] == -1 then 1 else s[0]) * ProdInt(s[1..])
  }

  /** The requested shape with every -1 filled in. */
  function Resolve(orig: seq<nat>, shape: seq<int>): Outcome<seq<int>> {
    if -1 in shape then
      var total, given := Prod(orig), ProdInt(shape);
      if given == 0 || total % given != 0 then Err(AssertionFailed)
      else Ok(seq(|shape|, i requires 0 <= i < |shape| => if shape[i] == -1 then total / given else shape[i]))
    else Ok(shape)
  }

  predicate NonNegative(s: seq<int>) {
    forall i :: 0 <= i < |s| ==> s[i] >= 0
  }

  function ToNats(s: seq<int>): (r: seq<nat>)
    requires NonNegative(s)
    ensures |r| == |s| && forall i :: 0 <= i < |s| ==> r[i] == s[i]
  {
    seq(|s|, i requires 0 <= i < |s| => s[i] as nat)
  }

  function ReshapeTo(l: Lora, shape: seq<nat>): Outcome<Lora>
    requires Constructible(l.a, l.b) && |shape| >= 2
  {
    var m := |shape|;
    match Reshape(l.a, Ones(m - 2) + [Rank(l), l.a.shape[|l.a.shape| - 1]])
    case Err(e) => Err(e)
    case Ok(a) =>
      match Reshape(l.b, shape[..m - 1] + [Rank(l)])
      case Err(e) => Err(e)
      case Ok(b) => Make(a, b)
  }

  function LoraReshape(l: Lora, shape: seq<int>): Outcome<Lora>
    requires Constructible(l.a, l.b)
  {
    if |shape| < 2 then Err(NotImplemented)
    else match Resolve(Shape(l), shape)
      case Err(e) => Err(e)
      case Ok(s) =>
        if s[|s| - 1] != l.a.shape[|l.a.shape| - 1] then Err(NotImplemented)
        else if !NonNegative(s) then Err(TorchError)
        else ReshapeTo(l, ToNats(s))
  }

  /** The number of sizes left open. */
  function Holes(shape: seq<int>): nat {
    if shape == [] then 0 else (if shape[0] == -1 then 1 else 0) + Holes(shape[1..])
  }

  /** The tensor itself leaves at most one size open. */
  function DenseReshape(t: Tensor, shape: seq<int>): Outcome<Tensor> {
    if Holes(shape) > 1 then Err(TorchError)
    else match Resolve(t.shape, shape)
    case Err(e) => Err(e)
    case Ok(s) => if !NonNegative(s) then Err(TorchError) else Reshape(t, ToNats(s))
  }

  lemma ProdTwo(shape: seq<nat>, m: nat, n: nat)
    ensures Prod(shape + [m, n]) == Prod(shape) * m * n
  {
    assert shape + [m, n] == (shape + [m]) + [n];
    ProdSnoc(shape + [m], n);
    ProdSnoc(shape, m);
  }

  lemma FlatA(rank: nat, cols: nat, m: nat, k: nat, c: nat)
    ensures Flat(Ones(m) + [rank, cols], Zeros(m) + [k, c]) == k * cols + c
  {
    hide Flat;
    assert Ones(m) + [rank, cols] == (Ones(m) + [rank]) + [cols];
    assert Zeros(m) + [k, c] == (Zeros(m) + [k]) + [c];
    FlatSnoc(Ones(m) + [rank], cols, Zeros(m) + [k], c);
    FlatSnoc(Ones(m), rank, Zeros(m), k);
    FlatZeros(Ones(m));
  }

  lemma UnflatA(lead: seq<nat>, rank: nat, cols: nat, k: nat, c: nat)
    requires k < rank && c < cols
    ensures Unflat(lead + [rank, cols], k * cols + c) == Zeros(|lead|) + [k, c]
  {
    hide Unflat;
    assert lead + [rank, cols] == (lead + [rank]) + [cols];
    UnflatSnoc(lead + [rank], cols, k, c);
    UnflatSnoc(lead, rank, 0, k);
    UnflatZero(lead);
  }

  /** A row keeps its number when the row axes are regrouped, however long the rows are. */
  lemma ReshapedRow(rows: seq<nat>, rows': seq<nat>, m: nat, r: seq<nat>, k: nat)
    requires |r| == |rows'| && k < m
    ensures Unflat(rows + [m], Flat(rows' + [m], r + [k])) == Unflat(rows, Flat(rows', r)) + [k]
  {
    FlatSnoc(rows', m, r, k);
    UnflatSnoc(rows, m, Flat(rows', r), k);
  }

  lemma LeadIsOne(lead: seq<nat>, rank: nat, cols: nat, m: nat)
    requires Prod(lead + [rank, cols]) == Prod(Ones(m) + [rank, cols]) && rank > 0 && cols > 0
    ensures forall i :: 0 <= i < |lead| ==> lead[i] == 1
  {
    ProdTwo(lead, rank, cols);
    ProdTwo(Ones(m), rank, cols);
    ProdOnes(m);
    var p := Prod(lead);
    assert p * rank * cols == rank * cols;
    CancelTwo(p, rank, cols);
    ProdIsOne(lead);
  }

  lemma CancelTwo(p: nat, rank: nat, cols: nat)
    requires p * rank * cols == rank * cols && rank > 0 && cols > 0
    ensures p == 1
  {
    var x := rank * cols;
    assert x > 0 by { MulMono(1, rank, cols); }
    assert p * x == p * rank * cols == 1 * x;
    CancelFactor(p, 1, x);
  }

  lemma CancelFactor(x: nat, y: nat, m: nat)
    requires x * m == y * m && m > 0
    ensures x == y
  {
    DivRow(x, 0, m);
    DivRow(y, 0, m);
  }

  lemma SplitShapes(l: Lora)
    requires Constructible(l.a, l.b)
    ensures var n := |l.a.shape|;
            && l.b.shape == l.b.shape[..n - 1] + [Rank(l)]
            && l.a.shape == l.a.shape[..n - 2] + [Rank(l), l.a.shape[n - 1]]
  {
  }

  lemma ReshapeB(l: Lora, l': Lora, shape: seq<nat>, r: seq<nat>, k: nat)
    requires Constructible(l.a, l.b) && |shape| >= 2 && ReshapeTo(l, shape) == Ok(l')
    requires |r| == |shape| - 1 && k < Rank(l)
    ensures l'.b.at(r + [k]) == l.b.at(Unflat(l.b.shape[..|l.b.shape| - 1], Flat(shape[..|shape| - 1], r)) + [k])
  {
    hide Flat, Unflat, Prod;
    SplitShapes(l);
    ReshapedRow(l.b.shape[..|l.b.shape| - 1], shape[..|shape| - 1], Rank(l), r, k);
  }

  lemma ReshapeA(l: Lora, l': Lora, shape: seq<nat>, k: nat, c: nat)
    requires Constructible(l.a, l.b) && |shape| >= 2 && ReshapeTo(l, shape) == Ok(l')
    requires k < Rank(l) && c < l.a.shape[|l.a.shape| - 1]
    ensures l'.a.at(Zeros(|shape| - 2) + [k, c]) == l.a.at(Zeros(|l.a.shape| - 2) + [k, c])
    ensures l'.a.shape == Ones(|shape| - 2) + [Rank(l), l.a.shape[|l.a.shape| - 1]]
    ensures forall i :: 0 <= i < |l.a.shape| - 2 ==> l.a.shape[i] == 1
  {
    hide Flat, Unflat, Prod;
    var n := |l.a.shape|;
    var lead := l.a.shape[..n - 2];
    SplitShapes(l);
    LeadIsOne(lead, Rank(l), l.a.shape[n - 1], |shape| - 2);
    FlatA(Rank(l), l.a.shape[n - 1], |shape| - 2, k, c);
    UnflatA(lead, Rank(l), l.a.shape[n - 1], k, c);
  }

  /** With leading axes of size one only the last two coordinates matter to A. */
  lemma IndexOnes(shape: seq<nat>, idx: seq<nat>, k: nat)
    requires |idx| == |shape| >= 2 && forall i :: 0 <= i < |shape| - 2 ==> shape[i] == 1
    ensures IndexA(shape, idx, k) == Zeros(|shape| - 2) + [k, idx[|idx| - 1]]
  {
  }

  lemma ReshapeTerm(l: Lora, l': Lora, shape: seq<nat>, idx: seq<nat>, k: nat)
    requires Constructible(l.a, l.b) && |shape| >= 2 && shape[|shape| - 1] == l.a.shape[|l.a.shape| - 1]
    requires ReshapeTo(l, shape) == Ok(l') && Constructible(l'.a, l'.b)
    requires Within(shape, idx) && k < Rank(l)
    ensures var u := Unflat(Shape(l), Flat(shape, idx)); |u| == |l.a.shape| && Term(l', idx)(k) == Term(l, u)(k)
  {
    hide Flat, Unflat, Prod, ReshapeTo;
    var n, m := |l.a.shape|, |shape|;
    var c, rows, rows', r := idx[m - 1], l.b.shape[..n - 1], shape[..m - 1], idx[..m - 1];
    assert idx == r + [c] && shape == rows' + [shape[m - 1]];
    ReshapedRow(rows, rows', shape[m - 1], r, c);
    ReshapeB(l, l', shape, r, k);
    ReshapeA(l, l', shape, k, c);
    var u := Unflat(rows, Flat(rows', r)) + [c];
    IndexOnes(l.a.shape, u, k);
    IndexOnes(l'.a.shape, idx, k);
    assert IndexB(u, k) == Unflat(rows, Flat(rows', r)) + [k];
  }

  /** The request that the tensor itself accepts, among those that the class does. Without a rank the
      factors have no entries, and the class no longer checks the number of rows. */
  predicate ReshapeFits(l: Lora, shape: seq<int>)
    requires Constructible(l.a, l.b) && LoraReshape(l, shape).Ok?
  {
    && Holes(shape) <= 1
    && (Rank(l) > 0 || Prod(ToNats(Resolve(Shape(l), shape).value)) == Prod(Shape(l)))
  }

  /** For every weight and every shape the class accepts: the tensor accepts it too exactly when it
      fits, and then reshaping the factors reshapes the product. */
  lemma ReshapeCommutes(l: Lora, shape: seq<int>)
    requires Meaningful(l) && LoraReshape(l, shape).Ok?
    ensures var l' := LoraReshape(l, shape).value;
            && Meaningful(l') && Rank(l') == Rank(l)
            && (DenseReshape(Product(l), shape).Ok? <==> ReshapeFits(l, shape))
            && (DenseReshape(Product(l), shape).Ok? ==> Same(DenseReshape(Product(l), shape).value, Product(l')))
  {
    var s := ToNats(Resolve(Shape(l), shape).value);
    var l' := LoraReshape(l, shape).value;
    ReshapeShapes(l, l', s);
    if Rank(l) > 0 {
      ReshapeSizes(l, l', s);
    }
    if Reshape(Product(l), s).Ok? {
      var w := Reshape(Product(l), s).value;
      forall idx | Within(s, idx) ensures w.at(idx) == Product(l').at(idx) {
        var u := Unflat(Shape(l), Flat(s, idx));
        forall k: nat | k < Rank(l) ensures Term(l', idx)(k) == Term(l, u)(k) {
          ReshapeTerm(l, l', s, idx, k);
        }
        SumSame(Rank(l), Term(l', idx), Term(l, u));
      }
    }
  }

  lemma ReshapeShapes(l: Lora, l': Lora, s: seq<nat>)
    requires Meaningful(l) && |s| >= 2 && s[|s| - 1] == l.a.shape[|l.a.shape| - 1] && ReshapeTo(l, s) == Ok(l')
    ensures Meaningful(l') && Shape(l') == s && Rank(l') == Rank(l)
  {
  }

  lemma ReshapeSizes(l: Lora, l': Lora, s: seq<nat>)
    requires Meaningful(l) && Rank(l) > 0 && |s| >= 2
    requires s[|s| - 1] == l.a.shape[|l.a.shape| - 1] && ReshapeTo(l, s) == Ok(l')
    ensures Reshape(Product(l), s).Ok?
  {
    var n, m := |l.a.shape|, |s|;
    var rank, cols := Rank(l), l.a.shape[n - 1];
    SplitShapes(l);
    assert s == s[..m - 1] + [cols];
    var x, y := Prod(s[..m - 1]), Prod(l.b.shape[..n - 1]);
    ProdSnoc(s[..m - 1], cols);
    ProdSnoc(s[..m - 1], rank);
    ProdSnoc(l.b.shape[..n - 1], cols);
    ProdSnoc(l.b.shape[..n - 1], rank);
    CancelFactor(x, y, rank);
  }

  /** A weight of rank zero. */
  function Hollow(rows: nat): (l: Lora)
    ensures Meaningful(l) && Shape(l) == [rows, 1]
  {
    Lora(Tensor([0, 1], (idx: seq<nat>) => 0.0), Tensor([rows, 0], (idx: seq<nat>) => 0.0))
  }

  lemma ProdPair(x: nat, y: nat)
    ensures Prod([x, y]) == x * y
  {
    assert [] + [x, y] == [x, y];
    ProdTwo([], x, y);
  }

  /** Without a rank the number of rows is not checked: the class reshapes to any number. */
  lemma RankZeroLosesRows(rows: nat, wanted: nat)
    ensures LoraReshape(Hollow(rows), [wanted, 1]).Ok?
    ensures DenseReshape(Product(Hollow(rows)), [wanted, 1]).Ok? <==> rows == wanted
  {
    hide Prod;
    var l := Hollow(rows);
    ProdPair(rows, 1);
    ProdPair(wanted, 1);
    ProdPair(rows, 0);
    ProdPair(wanted, 0);
    ProdPair(0, 1);
    assert ToNats([wanted, 1]) == [wanted, 1];
    var asked: seq<int> := [wanted, 1];
    assert asked[1..] == [1] && asked[1..][1..] == [];
    assert Holes(asked[1..]) == Holes(asked[1..][1..]) == 0;
    assert Holes(asked) == 0;
    assert Ones(0) + [0, 1] == [0, 1] && [wanted, 1][..1] + [0] == [wanted, 0];
  }

  // ----- permute -----

  /** Torch's reading of negative axes. */
  function Axes(dims: seq<int>, n: nat): (r: seq<int>)
    ensures |r| == |dims|
  {
    seq(|dims|, i requires 0 <= i < |dims| => if dims[i] < 0 then dims[i] + n else dims[i])
  }

  predicate LeadsAreOne(shape: seq<nat>) {
    forall i :: 0 <= i < |shape| - 2 ==> shape[i] == 1
  }

  function LoraPermute(l: Lora, dims: seq<int>): Outcome<Lora>
    requires Constructible(l.a, l.b)
  {
    var n := |l.a.shape|;
    var m := |dims|;
    var neg := seq(m, i requires 0 <= i < m => if dims[i] >= 0 then dims[i] - n else dims[i]);
    if m == 0 then Err(TorchError)
    else if neg[m - 1] == -1 then
      if !LeadsAreOne(l.a.shape) then Err(AssertionFailed)
      else match Permute(l.b, Axes(neg, n))
           case Err(e) => Err(e)
           case Ok(b) => Make(l.a, b)
    else if n == 2 && m >= 2 && neg[m - 1] == -2 && neg[m - 2] == -1 then
      match Permute(l.b, Axes(neg, n))
      case Err(e) => Err(e)
      case Ok(a) =>
        match Permute(l.a, Axes(neg, n))
        case Err(e) => Err(e)
        case Ok(b) => Make(a, b)
    else Err(NotImplemented)
  }

  function DensePermute(t: Tensor, dims: seq<int>): Outcome<Tensor> {
    Permute(t, Axes(dims, |t.shape|))
  }

  /** A permutation that keeps the last axis permutes the others among themselves. */
  lemma LastStays(dims: seq<int>, n: nat, d: int)
    requires IsPermutation(dims, n) && n > 0 && dims[n - 1] == n - 1 && 0 <= d < n
    ensures Position(dims, d) == n - 1 <==> d == n - 1
  {
    if d == n - 1 {
      AxisOnce(dims, n, Position(dims, d), n - 1);
    }
  }

  lemma AxisOnce(dims: seq<int>, n: nat, i: nat, j: nat)
    requires IsPermutation(dims, n) && i < n && j < n && dims[i] == dims[j]
    ensures i == j
  {
  }

  lemma UnpermuteRow(dims: seq<int>, n: nat, idx: seq<nat>, k: nat)
    requires IsPermutation(dims, n) && n > 0 && dims[n - 1] == n - 1 && |idx| == n
    ensures Unpermute(dims, n, idx[..n - 1] + [k]) == Unpermute(dims, n, idx)[..n - 1] + [k]
    ensures Unpermute(dims, n, idx)[n - 1] == idx[n - 1]
  {
    var left, right := Unpermute(dims, n, idx[..n - 1] + [k]), Unpermute(dims, n, idx)[..n - 1] + [k];
    forall d | 0 <= d < n ensures left[d] == right[d] {
      LastStays(dims, n, d);
    }
    LastStays(dims, n, n - 1);
  }

  lemma PermuteTerm(l: Lora, dims: seq<int>, idx: seq<nat>, k: nat)
    requires Constructible(l.a, l.b) && LeadsAreOne(l.a.shape) && |idx| == |l.a.shape|
    requires IsPermutation(dims, |l.a.shape|) && dims[|dims| - 1] == |dims| - 1
    ensures var l' := Lora(l.a, Permute(l.b, dims).value);
            && Constructible(l'.a, l'.b)
            && Term(l', idx)(k) == Term(l, Unpermute(dims, |dims|, idx))(k)
  {
    var n := |l.a.shape|;
    var u := Unpermute(dims, n, idx);
    UnpermuteRow(dims, n, idx, k);
    IndexOnes(l.a.shape, idx, k);
    IndexOnes(l.a.shape, u, k);
    assert IndexB(idx, k) == idx[..n - 1] + [k] && IndexB(u, k) == u[..n - 1] + [k];
  }

  lemma PermuteRows(l: Lora, dims: seq<int>)
    requires Meaningful(l) && LeadsAreOne(l.a.shape)
    requires IsPermutation(dims, |l.a.shape|) && dims[|dims| - 1] == |dims| - 1
    ensures var l' := Lora(l.a, Permute(l.b, dims).value);
            && Meaningful(l') && Rank(l') == Rank(l)
            && Permute(Product(l), dims).Ok? && Same(Permute(Product(l), dims).value, Product(l'))
  {
    hide Term;
    var n := |l.a.shape|;
    var l' := Lora(l.a, Permute(l.b, dims).value);
    var w := Permute(Product(l), dims).value;
    PermutedShapes(l, dims);
    forall idx | Within(w.shape, idx) ensures w.at(idx) == Product(l').at(idx) {
      var u := Unpermute(dims, n, idx);
      forall k: nat | k < Rank(l) ensures Term(l', idx)(k) == Term(l, u)(k) {
        PermuteTerm(l, dims, idx, k);
      }
      SumSame(Rank(l), Term(l', idx), Term(l, u));
    }
  }

  lemma PermutedShapes(l: Lora, dims: seq<int>)
    requires Constructible(l.a, l.b) && IsPermutation(dims, |l.a.shape|) && dims[|dims| - 1] == |dims| - 1
    ensures var l' := Lora(l.a, Permute(l.b, dims).value);
            && Constructible(l'.a, l'.b) && Rank(l') == Rank(l)
            && Permute(Product(l), dims).Ok? && Permute(Product(l), dims).value.shape == Shape(l')
  {
    var n := |l.a.shape|;
    var l' := Lora(l.a, Permute(l.b, dims).value);
    forall i | 0 <= i < n ensures Permute(Product(l), dims).value.shape[i] == Shape(l')[i] {
      if i < n - 1 { assert dims[i] != dims[n - 1]; }
    }
  }

  /** Transposing a matrix product exchanges and transposes its factors. */
  lemma TransposeMatrix(l: Lora, dims: seq<int>)
    requires Meaningful(l) && |l.a.shape| == 2 && dims == [1, 0]
    ensures IsPermutation(dims, 2)
    ensures var l' := Lora(Permute(l.b, dims).value, Permute(l.a, dims).value);
            && Meaningful(l') && Rank(l') == Rank(l)
            && Permute(Product(l), dims).Ok? && Same(Permute(Product(l), dims).value, Product(l'))
  {
    assert forall d :: 0 <= d < 2 ==> d in dims by {
      assert dims[0] == 1 && dims[1] == 0;
    }
    assert Position(dims, 0) == 1 && Position(dims, 1) == 0;
    var l' := Lora(Permute(l.b, dims).value, Permute(l.a, dims).value);
    var w := Permute(Product(l), dims).value;
    assert w.shape == Shape(l');
    forall idx | Within(w.shape, idx) ensures w.at(idx) == Product(l').at(idx) {
      var u := [idx[1], idx[0]];
      assert Unpermute(dims, 2, idx) == u;
      forall k: nat | k < Rank(l) ensures Term(l', idx)(k) == Term(l, u)(k) {
        TransposeTerm(l, dims, idx, k);
      }
      SumSame(Rank(l), Term(l', idx), Term(l, u));
    }
  }

  lemma TransposeTerm(l: Lora, dims: seq<int>, idx: seq<nat>, k: nat)
    requires Constructible(l.a, l.b) && |l.a.shape| == 2 && dims == [1, 0] && |idx| == 2 && IsPermutation(dims, 2)
    ensures var l' := Lora(Permute(l.b, dims).value, Permute(l.a, dims).value);
            && Constructible(l'.a, l'.b)
            && Term(l', idx)(k) == Term(l, [idx[1], idx[0]])(k)
  {
    var l' := Lora(Permute(l.b, dims).value, Permute(l.a, dims).value);
    var u := [idx[1], idx[0]];
    assert Position(dims, 0) == 1 && Position(dims, 1) == 0;
    assert IndexB(idx, k) == [idx[0], k] && IndexA(l'.a.shape, idx, k) == [k, idx[1]];
    assert IndexB(u, k) == [idx[1], k] && IndexA(l.a.shape, u, k) == [k, idx[0]];
    assert Unpermute(dims, 2, [idx[0], k]) == [k, idx[0]];
    assert Unpermute(dims, 2, [k, idx[1]]) == [idx[1], k];
  }

  /** For every axis order the class accepts. An axis number beyond the last one wraps around
      in the class and is an error for the tensor itself; there is no other difference. */
  lemma PermuteCommutes(l: Lora, dims: seq<int>)
    requires Meaningful(l) && LoraPermute(l, dims).Ok?
    ensures var l' := LoraPermute(l, dims).value;
            && Meaningful(l') && Rank(l') == Rank(l)
            && (DensePermute(Product(l), dims).Ok? <==> forall i :: 0 <= i < |dims| ==> dims[i] < |l.a.shape|)
            && (DensePermute(Product(l), dims).Ok? ==> Same(DensePermute(Product(l), dims).value, Product(l')))
  {
    hide Product, Permute;
    var n, m := |l.a.shape|, |dims|;
    var neg := seq(m, i requires 0 <= i < m => if dims[i] >= 0 then dims[i] - n else dims[i]);
    var axes := Axes(neg, n);
    PermuteNeeds(l.b, axes);
    PermuteNeeds(Product(l), Axes(dims, n));
    if forall i :: 0 <= i < m ==> dims[i] < n {
      NegativeAxes(dims, neg, n);
    } else {
      var i :| 0 <= i < m && dims[i] >= n;
      assert Axes(dims, n)[i] >= n;
    }
    if neg[m - 1] == -1 {
      PermuteRows(l, axes);
    } else {
      assert axes == [1, 0];
      TransposeMatrix(l, axes);
    }
  }

  lemma PermuteNeeds(t: Tensor, dims: seq<int>)
    ensures Permute(t, dims).Ok? <==> IsPermutation(dims, |t.shape|)
  {
  }

  lemma NegativeAxes(dims: seq<int>, neg: seq<int>, n: nat)
    requires neg == seq(|dims|, i requires 0 <= i < |dims| => if dims[i] >= 0 then dims[i] - n else dims[i])
    requires forall i :: 0 <= i < |dims| ==> dims[i] < n
    ensures Axes(dims, n) == Axes(neg, n)
  {
  }

  /** `transpose` and `swapaxes`: the axis order with two entries exchanged. */
  function Swapped(n: nat, i: int, j: int): Outcome<seq<int>> {
    match (Normal(i, n), Normal(j, n))
    case (Ok(x), Ok(y)) =>
      var dims := seq(n, k requires 0 <= k < n => k);
      Ok(dims[x := y][y := x])
    case _ => Err(TorchError)
  }

  function LoraTranspose(l: Lora, i: int, j: int): Outcome<Lora>
    requires Constructible(l.a, l.b)
  {
    match Swapped(|l.a.shape|, i, j)
    case Err(e) => Err(e)
    case Ok(dims) => LoraPermute(l, dims)
  }

  function DenseTranspose(t: Tensor, i: int, j: int): Outcome<Tensor> {
    match Swapped(|t.shape|, i, j)
    case Err(e) => Err(e)
    case Ok(dims) => DensePermute(t, dims)
  }
}
