/** Scaling a factored weight by rows, and joining several weights, by stacking and by
    concatenation. The rows are those of B; a stack or a concatenation joins the factors one by
    one, except that matrices must share their A. */
module LoraJoins {
  import opened Wrappers
  import opened Tensor
  import opened Lora

  // ----- scaling -----

  function LoraScale(l: Lora, factor: Tensor): Outcome<Lora>
    requires Constructible(l.a, l.b)
  {
    if factor.shape != [] && factor.shape[|factor.shape| - 1] != 1 then Err(NotImplemented)
    else match Scale(l.b, factor)
         case Err(e) => Err(e)
         case Ok(b) => Make(l.a, b)
  }

  /** The class can take the factor: one number for every row, and no more axes than the weight. */
  predicate RowFactor(l: Lora, factor: Tensor) {
    && |factor.shape| <= |l.a.shape|
    && (factor.shape == [] || factor.shape[|factor.shape| - 1] == 1)
  }

  lemma ScaleFits(l: Lora, factor: Tensor)
    requires Constructible(l.a, l.b) && RowFactor(l, factor)
    ensures Fits(factor.shape, l.b.shape, |l.a.shape|) <==> Fits(factor.shape, Shape(l), |l.a.shape|)
  {
    var n := |l.a.shape|;
    assert SizeAt(factor.shape, n, n - 1) == 1;
    forall i | 0 <= i < n - 1 ensures SizeAt(l.b.shape, n, i) == SizeAt(Shape(l), n, i) {
    }
  }

  lemma ScaledShapes(l: Lora, factor: Tensor)
    requires Meaningful(l) && RowFactor(l, factor) && Fits(factor.shape, l.b.shape, |l.a.shape|)
    ensures var l' := Lora(l.a, Scale(l.b, factor).value);
            && LoraScale(l, factor) == Ok(l') && Meaningful(l') && Rank(l') == Rank(l)
            && Shape(l') == Broadcast(factor.shape, Shape(l), |l.a.shape|)
  {
    var n := |l.a.shape|;
    BroadcastRows(l, factor);
    hide Fits, SizeAt, Broadcast, Scale;
    ScaleNeeds(l.b, factor);
    ScaleReads(l.b, factor, Zeros(n));
    var l' := Lora(l.a, Scale(l.b, factor).value);
    assert Shape(l') == Broadcast(factor.shape, Shape(l), n);
  }

  /** Broadcasting the rows of B broadcasts those of the product, and leaves the rank. */
  lemma BroadcastRows(l: Lora, factor: Tensor)
    requires Meaningful(l) && RowFactor(l, factor) && Fits(factor.shape, l.b.shape, |l.a.shape|)
    ensures var n := |l.a.shape|;
            var b, s := Broadcast(factor.shape, l.b.shape, n), Broadcast(factor.shape, Shape(l), n);
            && b[n - 1] == Rank(l) && s == b[..n - 1] + [l.a.shape[n - 1]]
            && forall i :: 0 <= i < n - 2 ==> l.a.shape[i] == 1 || l.a.shape[i] == b[i]
  {
    var n := |l.a.shape|;
    var b, s := Broadcast(factor.shape, l.b.shape, n), Broadcast(factor.shape, Shape(l), n);
    assert SizeAt(factor.shape, n, n - 1) == 1;
    forall i | 0 <= i < n ensures (b[..n - 1] + [l.a.shape[n - 1]])[i] == s[i] {
      assert i < n - 1 ==> SizeAt(l.b.shape, n, i) == SizeAt(Shape(l), n, i);
    }
    forall i | 0 <= i < n - 2 ensures l.a.shape[i] == 1 || l.a.shape[i] == b[i] {
      assert SizeAt(l.b.shape, n, i) == l.b.shape[i];
    }
  }

  lemma AlignedIndexes(l: Lora, f: seq<nat>, idx: seq<nat>, k: nat)
    requires Meaningful(l) && |f| <= |l.a.shape| && (f == [] || f[|f| - 1] == 1) && k < Rank(l)
    requires |idx| == |l.a.shape| && idx[|idx| - 1] < l.a.shape[|idx| - 1]
    ensures Aligned(f, IndexB(idx, k)) == Aligned(f, idx)
    ensures Aligned(l.b.shape, IndexB(idx, k)) == IndexB(Aligned(Shape(l), idx), k)
    ensures IndexA(l.a.shape, idx, k) == IndexA(l.a.shape, Aligned(Shape(l), idx), k)
  {
    assert Aligned(f, IndexB(idx, k)) == Aligned(f, idx);
    assert Aligned(l.b.shape, IndexB(idx, k)) == IndexB(Aligned(Shape(l), idx), k);
    assert IndexA(l.a.shape, idx, k) == IndexA(l.a.shape, Aligned(Shape(l), idx), k);
  }

  lemma ScaleTerm(l: Lora, factor: Tensor, idx: seq<nat>, k: nat)
    requires Meaningful(l) && RowFactor(l, factor) && Fits(factor.shape, l.b.shape, |l.a.shape|) && k < Rank(l)
    requires |idx| == |l.a.shape| && idx[|idx| - 1] < l.a.shape[|idx| - 1]
    ensures Term(Lora(l.a, Scale(l.b, factor).value), idx)(k) ==
            factor.at(Aligned(factor.shape, idx)) * Term(l, Aligned(Shape(l), idx))(k)
  {
    var f := factor.shape;
    var u := Aligned(Shape(l), idx);
    AlignedIndexes(l, f, idx, k);
    hide Aligned, IndexA, IndexB, Fits, Broadcast;
    ScaleReads(l.b, factor, IndexB(idx, k));
    var c, x, y := factor.at(Aligned(f, idx)), l.b.at(IndexB(u, k)), l.a.at(IndexA(l.a.shape, u, k));
    assert Term(Lora(l.a, Scale(l.b, factor).value), idx)(k) == (c * x) * y;
    assert (c * x) * y == c * (x * y);
  }

  lemma ScaledEntry(l: Lora, factor: Tensor, idx: seq<nat>)
    requires Meaningful(l) && RowFactor(l, factor) && Fits(factor.shape, l.b.shape, |l.a.shape|)
    requires |idx| == |l.a.shape| && idx[|idx| - 1] < l.a.shape[|idx| - 1]
    ensures var l' := Lora(l.a, Scale(l.b, factor).value);
            && Constructible(l'.a, l'.b)
            && Product(l').at(idx) == factor.at(Aligned(factor.shape, idx)) * Product(l).at(Aligned(Shape(l), idx))
  {
    hide Term, Scale;
    ScaledShapes(l, factor);
    var l' := Lora(l.a, Scale(l.b, factor).value);
    var c, u := factor.at(Aligned(factor.shape, idx)), Aligned(Shape(l), idx);
    forall k: nat | k < Rank(l) ensures Term(l', idx)(k) == c * Term(l, u)(k) {
      ScaleTerm(l, factor, idx, k);
    }
    SumScaled(Rank(l), c, Term(l, u), Term(l', idx));
  }

  lemma ScaleReads(t: Tensor, factor: Tensor, idx: seq<nat>)
    requires |factor.shape| <= |t.shape| == |idx| && Scale(t, factor).Ok?
    ensures var w := Scale(t, factor).value;
            && w.shape == Broadcast(factor.shape, t.shape, |t.shape|)
            && w.at(idx) == factor.at(Aligned(factor.shape, idx)) * t.at(Aligned(t.shape, idx))
  {
    hide Broadcast, Fits, Aligned;
  }

  lemma ScaledSame(l: Lora, factor: Tensor)
    requires Meaningful(l) && RowFactor(l, factor) && Fits(factor.shape, l.b.shape, |l.a.shape|)
    requires Scale(Product(l), factor).Ok?
    ensures var l' := Lora(l.a, Scale(l.b, factor).value);
            Constructible(l'.a, l'.b) && Same(Scale(Product(l), factor).value, Product(l'))
  {
    hide Product, Fits, Broadcast, Aligned, SizeAt, Scale;
    ScaledShapes(l, factor);
    var w, l' := Scale(Product(l), factor).value, Lora(l.a, Scale(l.b, factor).value);
    var n := |l.a.shape|;
    ScaleReads(Product(l), factor, Zeros(n));
    assert w.shape == Shape(l') && Shape(l')[n - 1] == l.a.shape[n - 1];
    forall idx | Within(w.shape, idx) ensures w.at(idx) == Product(l').at(idx) {
      ScaleReads(Product(l), factor, idx);
      ScaledEntry(l, factor, idx);
    }
  }

  lemma ScaleNeeds(t: Tensor, factor: Tensor)
    requires |factor.shape| <= |t.shape|
    ensures Scale(t, factor).Ok? <==> Fits(factor.shape, t.shape, |t.shape|)
  {
  }

  lemma RowFactorNeeded(l: Lora, factor: Tensor)
    requires Constructible(l.a, l.b) && !RowFactor(l, factor)
    ensures LoraScale(l, factor).Err?
  {
  }

  /** Row scaling, and scaling by a number, may be pushed onto B alone: it is accepted exactly when the
      tensor accepts a factor of that kind. Either operand may be broadcast to the other. */
  lemma ScaleCommutes(l: Lora, factor: Tensor)
    requires Meaningful(l)
    ensures LoraScale(l, factor).Ok? <==> RowFactor(l, factor) && Scale(Product(l), factor).Ok?
    ensures LoraScale(l, factor).Ok? ==>
              var l' := LoraScale(l, factor).value;
              Meaningful(l') && Rank(l') == Rank(l) && Same(Scale(Product(l), factor).value, Product(l'))
  {
    if RowFactor(l, factor) {
      ScaleFits(l, factor);
      ScaleNeeds(l.b, factor);
      ScaleNeeds(Product(l), factor);
      hide Fits, Same, Scale, Product, Shape;
      if Fits(factor.shape, l.b.shape, |l.a.shape|) {
        ScaledShapes(l, factor);
        ScaledSame(l, factor);
      }
    } else {
      RowFactorNeeded(l, factor);
    }
  }

  // ----- stacking -----

  function Firsts(ls: seq<Lora>): (r: seq<Tensor>)
    ensures |r| == |ls| && forall i :: 0 <= i < |ls| ==> r[i] == ls[i].a
  {
    seq(|ls|, i requires 0 <= i < |ls| => ls[i].a)
  }

  function Seconds(ls: seq<Lora>): (r: seq<Tensor>)
    ensures |r| == |ls| && forall i :: 0 <= i < |ls| ==> r[i] == ls[i].b
  {
    seq(|ls|, i requires 0 <= i < |ls| => ls[i].b)
  }

  predicate AllMeaningful(ls: seq<Lora>) {
    forall i {:trigger ls[i]} :: 0 <= i < |ls| ==> Meaningful(ls[i])
  }

  function Products(ls: seq<Lora>): (r: seq<Tensor>)
    requires AllMeaningful(ls)
    ensures |r| == |ls| && forall i :: 0 <= i < |ls| ==> r[i] == Product(ls[i])
  {
    seq(|ls|, i requires 0 <= i < |ls| => Product(ls[i]))
  }

  function LoraStack(ls: seq<Lora>): Outcome<Lora> {
    match Stack(Firsts(ls))
    case Err(e) => Err(e)
    case Ok(a) =>
      match Stack(Seconds(ls))
      case Err(e) => Err(e)
      case Ok(b) => Make(a, b)
  }

  lemma StackShape(ts: seq<Tensor>, i: nat)
    requires Stack(ts).Ok? && i < |ts|
    ensures ts[i].shape == ts[0].shape && Stack(ts).value.shape == [|ts|] + ts[i].shape
  {
  }

  lemma StackTerm(ls: seq<Lora>, i: nat, idx: seq<nat>, k: nat)
    requires AllMeaningful(ls)
    requires LoraStack(ls).Ok? && i < |ls| && |idx| == |ls[0].a.shape|
    ensures |ls[i].a.shape| == |idx|
    ensures Term(LoraStack(ls).value, [i] + idx)(k) == Term(ls[i], idx)(k)
  {
    var l' := LoraStack(ls).value;
    var u := [i] + idx;
    StackShape(Firsts(ls), i);
    StackShape(Seconds(ls), i);
    assert Firsts(ls)[0] == ls[0].a;
    assert IndexB(u, k) == [i] + IndexB(idx, k);
    assert IndexA(l'.a.shape, u, k) == [i] + IndexA(ls[i].a.shape, idx, k);
    assert IndexB(u, k)[1..] == IndexB(idx, k) && IndexA(l'.a.shape, u, k)[1..] == IndexA(ls[i].a.shape, idx, k);
  }

  /** Stacking experts: the factors are stacked separately and still multiply pairwise. */
  lemma StackCommutes(ls: seq<Lora>)
    requires AllMeaningful(ls)
    requires LoraStack(ls).Ok?
    ensures var l' := LoraStack(ls).value;
            && Meaningful(l') && AllRank(ls, Rank(l'))
            && Stack(Products(ls)).Ok? && Same(Stack(Products(ls)).value, Product(l'))
  {
    hide Term;
    var l' := LoraStack(ls).value;
    StackedShapes(ls);
    var w := Stack(Products(ls)).value;
    forall idx | Within(w.shape, idx) ensures w.at(idx) == Product(l').at(idx) {
      var i, rest := idx[0], idx[1..];
      assert idx == [i] + rest;
      StackShape(Firsts(ls), i);
      StackShape(Seconds(ls), i);
      assert Firsts(ls)[0] == ls[0].a;
      forall k: nat | k < Rank(l') ensures Term(l', idx)(k) == Term(ls[i], rest)(k) {
        StackTerm(ls, i, rest, k);
      }
      SumSame(Rank(l'), Term(l', idx), Term(ls[i], rest));
    }
  }

  lemma StackedShapes(ls: seq<Lora>)
    requires AllMeaningful(ls)
    requires LoraStack(ls).Ok?
    ensures var l' := LoraStack(ls).value;
            && Meaningful(l') && AllRank(ls, Rank(l'))
            && Stack(Products(ls)).Ok? && Stack(Products(ls)).value.shape == Shape(l')
  {
    var l' := LoraStack(ls).value;
    assert ls != [] by { assert |Firsts(ls)| == |ls|; }
    forall i | 0 <= i < |ls|
      ensures Shape(ls[i]) == Shape(ls[0]) && ls[i].a.shape == ls[0].a.shape && ls[i].b.shape == ls[0].b.shape
    {
      StackShape(Firsts(ls), i);
      StackShape(Seconds(ls), i);
      assert Firsts(ls)[0] == ls[0].a && Seconds(ls)[0] == ls[0].b;
    }
    StackShape(Firsts(ls), 0);
    StackShape(Seconds(ls), 0);
    assert Shape(l') == [|ls|] + Shape(ls[0]);
    assert Products(ls)[0].shape == Shape(ls[0]);
  }

  // ----- concatenation -----

  /** Two weights along the first axis. */
  ghost function LoraCat(l: Lora, m: Lora): Outcome<Lora>
    requires Constructible(l.a, l.b) && Constructible(m.a, m.b)
  {
    if |l.a.shape| > 2 then
      match Cat(l.a, m.a)
      case Err(e) => Err(e)
      case Ok(a) =>
        match Cat(l.b, m.b)
        case Err(e) => Err(e)
        case Ok(b) => Make(a, b)
    else if Same(l.a, m.a) then
      match Cat(l.b, m.b)
      case Err(e) => Err(e)
      case Ok(b) => Make(l.a, b)
    else Err(NotImplemented)
  }

  /** Both factors have one matrix per position of the first axis. */
  predicate Unshared(l: Lora)
    requires Constructible(l.a, l.b)
  {
    |l.a.shape| > 2 ==> l.a.shape[0] == l.b.shape[0]
  }

  /** A batch of no matrices, with no A either. */
  predicate EmptyBatch(l: Lora)
    requires Constructible(l.a, l.b)
  {
    |l.a.shape| > 2 && l.a.shape[0] == 0 && l.b.shape[0] == 0
  }

  /** Both have one A per B, or one of them adds nothing. */
  predicate Joinable(l: Lora, m: Lora)
    requires Constructible(l.a, l.b) && Constructible(m.a, m.b)
  {
    (Unshared(l) && Unshared(m)) || EmptyBatch(l) || EmptyBatch(m)
  }

  lemma CatShapes(l: Lora, m: Lora)
    requires Meaningful(l) && Meaningful(m) && Joinable(l, m) && LoraCat(l, m).Ok?
    ensures var l' := LoraCat(l, m).value;
            && Meaningful(l') && (Unshared(l) && Unshared(m) ==> Unshared(l'))
            && Rank(l') == Rank(l) && Rank(m) == Rank(l) && |m.a.shape| == |l.a.shape|
            && Cat(Product(l), Product(m)).Ok? && Cat(Product(l), Product(m)).value.shape == Shape(l')
  {
    hide Cat;
    var n := |l.a.shape|;
    var l' := LoraCat(l, m).value;
    CatLengths(l.b, m.b);
    if n > 2 {
      CatLengths(l.a, m.a);
    }
    forall i | 1 <= i < n ensures Shape(l)[i] == Shape(m)[i] && Shape(l')[i] == Shape(l)[i] {
    }
    CatWorks(Product(l), Product(m), Shape(l'));
  }

  lemma CatWorks(t: Tensor, u: Tensor, s: seq<nat>)
    requires |t.shape| == |u.shape| == |s| > 0 && s[0] == t.shape[0] + u.shape[0]
    requires forall i :: 1 <= i < |s| ==> t.shape[i] == u.shape[i] == s[i]
    ensures Cat(t, u).Ok? && Cat(t, u).value.shape == s
  {
    assert t.shape[1..] == u.shape[1..] == s[1..];
  }

  lemma CatReads(t: Tensor, u: Tensor, idx: seq<nat>)
    requires Cat(t, u).Ok? && idx != []
    ensures idx[0] < t.shape[0] ==> Cat(t, u).value.at(idx) == t.at(idx)
    ensures idx[0] >= t.shape[0] ==> Cat(t, u).value.at(idx) == u.at([idx[0] - t.shape[0]] + idx[1..])
  {
  }

  lemma CatTermLeft(l: Lora, m: Lora, idx: seq<nat>, k: nat)
    requires Meaningful(l) && Meaningful(m) && Joinable(l, m) && LoraCat(l, m).Ok?
    requires Constructible(LoraCat(l, m).value.a, LoraCat(l, m).value.b)
    requires |LoraCat(l, m).value.a.shape| == |l.a.shape|
    requires |idx| == |l.a.shape| && Within(Shape(l), idx) && !EmptyBatch(l)
    ensures Term(LoraCat(l, m).value, idx)(k) == Term(l, idx)(k)
  {
    hide Cat, Same;
    var l' := LoraCat(l, m).value;
    var n := |l.a.shape|;
    assert Shape(l)[0] == l.b.shape[0] && IndexB(idx, k)[0] == idx[0];
    CatReads(l.b, m.b, IndexB(idx, k));
    if n > 2 {
      CatLengths(l.a, m.a);
      var ia, ia' := IndexA(l.a.shape, idx, k), IndexA(l'.a.shape, idx, k);
      assert ia' == ia;
      assert ia'[0] < l.a.shape[0];
      CatReads(l.a, m.a, ia');
    }
  }

  lemma CatLengths(t: Tensor, u: Tensor)
    requires Cat(t, u).Ok?
    ensures t.shape != [] && u.shape != [] && |u.shape| == |t.shape|
    ensures var s := Cat(t, u).value.shape;
            |s| == |t.shape| && s[0] == t.shape[0] + u.shape[0]
            && forall i :: 1 <= i < |s| ==> s[i] == t.shape[i] && s[i] == u.shape[i]
  {
    var s := Cat(t, u).value.shape;
    assert |t.shape[1..]| == |u.shape[1..]|;
    forall i | 1 <= i < |s| ensures s[i] == t.shape[i] && s[i] == u.shape[i] {
      assert t.shape[1..][i - 1] == u.shape[1..][i - 1];
    }
  }

  /** The coordinates of the second operand. */
  function Beyond(idx: seq<nat>, from: nat): (u: seq<nat>)
    requires idx != [] && idx[0] >= from
    ensures |u| == |idx|
  {
    [idx[0] - from] + idx[1..]
  }

  lemma CatTermRight(l: Lora, m: Lora, idx: seq<nat>, k: nat)
    requires Meaningful(l) && Meaningful(m) && Joinable(l, m) && LoraCat(l, m).Ok?
    requires Meaningful(LoraCat(l, m).value) && |m.a.shape| == |l.a.shape| && Rank(m) == Rank(l) && k < Rank(l)
    requires |idx| == |l.a.shape| && |LoraCat(l, m).value.a.shape| == |l.a.shape|
    requires idx[0] >= l.b.shape[0] && idx[|idx| - 1] < l.a.shape[|idx| - 1] && idx[0] < l.b.shape[0] + m.b.shape[0]
    requires !EmptyBatch(m)
    ensures Term(LoraCat(l, m).value, idx)(k) == Term(m, Beyond(idx, l.b.shape[0]))(k)
  {
    hide Cat, Same;
    var l' := LoraCat(l, m).value;
    var n := |l.a.shape|;
    var u := Beyond(idx, l.b.shape[0]);
    assert IndexB(idx, k)[0] == idx[0];
    assert IndexB(u, k) == Beyond(IndexB(idx, k), l.b.shape[0]);
    CatReads(l.b, m.b, IndexB(idx, k));
    if n > 2 {
      CatLengths(l.a, m.a);
      CatIndexA(l.a.shape, m.a.shape, l'.a.shape, idx, k);
      CatReads(l.a, m.a, IndexA(l'.a.shape, idx, k));
    } else {
      var ia := [k, idx[1]];
      assert IndexA(l.a.shape, idx, k) == ia && IndexA(m.a.shape, u, k) == ia;
      assert Within(l.a.shape, ia);
      SameReads(l.a, m.a, ia);
    }
  }

  lemma SameReads(t: Tensor, u: Tensor, idx: seq<nat>)
    requires Same(t, u) && Within(t.shape, idx)
    ensures t.at(idx) == u.at(idx)
  {
  }

  lemma CatIndexA(s: seq<nat>, r: seq<nat>, sum: seq<nat>, idx: seq<nat>, k: nat)
    requires |s| == |r| == |sum| == |idx| > 2 && s[0] <= idx[0] && s[0] + r[0] == sum[0]
    requires s[0] == 0 || idx[0] < sum[0]
    requires forall i :: 1 <= i < |s| ==> sum[i] == s[i] == r[i]
    ensures IndexA(sum, idx, k)[0] >= s[0]
    ensures IndexA(r, Beyond(idx, s[0]), k) == Beyond(IndexA(sum, idx, k), s[0])
  {
    var ia := IndexA(sum, idx, k);
    if s[0] == 0 {
      assert sum == r && Beyond(idx, 0) == idx && Beyond(ia, 0) == ia;
    } else {
      assert ia[0] == idx[0];
    }
    var left, right := IndexA(r, Beyond(idx, s[0]), k), Beyond(ia, s[0]);
    forall i | 0 <= i < |left| ensures left[i] == right[i] {
    }
  }

  /** Concatenating weights with the same A (matrices) or with one A per B (batches). */
  lemma CatCommutes(l: Lora, m: Lora)
    requires Meaningful(l) && Meaningful(m) && Joinable(l, m) && LoraCat(l, m).Ok?
    ensures var l' := LoraCat(l, m).value;
            && Meaningful(l') && Rank(l') == Rank(l)
            && Cat(Product(l), Product(m)).Ok? && Same(Cat(Product(l), Product(m)).value, Product(l'))
  {
    hide Term;
    var l' := LoraCat(l, m).value;
    CatShapes(l, m);
    var w := Cat(Product(l), Product(m)).value;
    forall idx | Within(w.shape, idx) ensures w.at(idx) == Product(l').at(idx) {
      CatEntry(l, m, idx);
    }
  }

  lemma CatEntry(l: Lora, m: Lora, idx: seq<nat>)
    requires Meaningful(l) && Meaningful(m) && Joinable(l, m) && LoraCat(l, m).Ok?
    requires var l' := LoraCat(l, m).value;
             && Meaningful(l') && Rank(l') == Rank(l) && Rank(m) == Rank(l) && |m.a.shape| == |l.a.shape|
             && Cat(Product(l), Product(m)).Ok? && Shape(l') == Cat(Product(l), Product(m)).value.shape
             && Within(Shape(l'), idx)
    ensures Cat(Product(l), Product(m)).value.at(idx) == Product(LoraCat(l, m).value).at(idx)
  {
    hide Term, LoraCat, Cat;
    var l' := LoraCat(l, m).value;
    CatLengths(Product(l), Product(m));
    CatReads(Product(l), Product(m), idx);
    assert Shape(l)[0] == l.b.shape[0] && Shape(m)[0] == m.b.shape[0];
    if idx[0] < l.b.shape[0] {
      forall i | 0 <= i < |idx| ensures idx[i] < Shape(l)[i] {
        if i > 0 { assert Shape(l')[i] == Shape(l)[i]; }
      }
      forall k: nat | k < Rank(l) ensures Term(l', idx)(k) == Term(l, idx)(k) {
        CatTermLeft(l, m, idx, k);
      }
      SumSame(Rank(l), Term(l', idx), Term(l, idx));
    } else {
      var u := Beyond(idx, l.b.shape[0]);
      var last := |idx| - 1;
      assert Shape(l')[last] == Shape(l)[last] == l.a.shape[last];
      forall k: nat | k < Rank(l) ensures Term(l', idx)(k) == Term(m, u)(k) {
        CatTermRight(l, m, idx, k);
      }
      SumSame(Rank(l), Term(l', idx), Term(m, u));
    }
  }

  /** A list of weights along the first axis. Matrices must have the same A. */
  ghost function LoraCatAll(ls: seq<Lora>): Outcome<Lora> {
    if ls == [] then Err(AssertionFailed)
    else if |ls[0].a.shape| > 2 then
      match CatAll(Firsts(ls))
      case Err(e) => Err(e)
      case Ok(a) =>
        match CatAll(Seconds(ls))
        case Err(e) => Err(e)
        case Ok(b) => Make(a, b)
    else if SharedA(ls) then
      match CatAll(Seconds(ls))
      case Err(e) => Err(e)
      case Ok(b) => Make(ls[0].a, b)
    else Err(NotImplemented)
  }

  ghost predicate SharedA(ls: seq<Lora>)
    requires ls != []
  {
    forall i {:trigger ls[i]} :: 1 <= i < |ls| ==> Same(ls[0].a, ls[i].a)
  }

  predicate AllUnshared(ls: seq<Lora>)
    requires AllMeaningful(ls)
  {
    forall i {:trigger ls[i]} :: 0 <= i < |ls| ==> Unshared(ls[i])
  }

  predicate AllRank(ls: seq<Lora>, rank: nat)
    requires AllMeaningful(ls)
  {
    forall i {:trigger ls[i]} :: 0 <= i < |ls| ==> Rank(ls[i]) == rank
  }

  /** The sizes of the first axes together. */
  function Leading(ts: seq<Tensor>): nat {
    if ts == [] then 0
    else
      var last := ts[|ts| - 1].shape;
      Leading(ts[..|ts| - 1]) + if last == [] then 0 else last[0]
  }

  predicate Batches(ls: seq<Lora>) {
    forall i {:trigger ls[i]} :: 0 <= i < |ls| ==> |ls[i].a.shape| > 2
  }

  /** Every weight has one A per B, or there is nothing to join, or a single A for a single batch among
      empty ones. */
  predicate CatFits(ls: seq<Lora>)
    requires AllMeaningful(ls)
  {
    |ls| == 1 || AllUnshared(ls) || (Batches(ls) && Leading(Firsts(ls)) == 1)
  }

  lemma PrefixParts(ls: seq<Lora>)
    requires ls != [] && AllMeaningful(ls)
    ensures var k := |ls| - 1;
            && Firsts(ls)[..k] == Firsts(ls[..k]) && Seconds(ls)[..k] == Seconds(ls[..k])
            && AllMeaningful(ls[..k]) && Products(ls)[..k] == Products(ls[..k])
  {
    hide Product;
  }

  lemma CatAllUnfolds(ts: seq<Tensor>)
    requires |ts| > 1 && CatAll(ts).Ok?
    ensures CatAll(ts[..|ts| - 1]).Ok? && CatAll(ts) == Cat(CatAll(ts[..|ts| - 1]).value, ts[|ts| - 1])
  {
    hide Cat;
  }

  /** The shape of a list that was concatenated, but for its first axis, is that of each member. */
  lemma {:induction false} CatAllLengths(ts: seq<Tensor>, i: nat)
    requires CatAll(ts).Ok? && i < |ts|
    ensures var s := CatAll(ts).value.shape;
            && s != [] && |s| == |ts[i].shape|
            && forall d :: 1 <= d < |s| ==> s[d] == ts[i].shape[d]
    decreases |ts|
  {
    hide Cat, CatAll;
    var k := |ts| - 1;
    if k == 0 {
      CatOne(ts);
    } else {
      CatAllUnfolds(ts);
      CatLengths(CatAll(ts[..k]).value, ts[k]);
      if i < k {
        CatAllLengths(ts[..k], i);
      }
    }
  }

  lemma CatOne(ts: seq<Tensor>)
    requires |ts| == 1 && CatAll(ts).Ok?
    ensures CatAll(ts) == Ok(ts[0]) && ts[0].shape != []
  {
  }

  lemma BatchesCatIs(ls: seq<Lora>)
    requires ls != [] && |ls[0].a.shape| > 2
    ensures var a, b := CatAll(Firsts(ls)), CatAll(Seconds(ls));
            && (LoraCatAll(ls).Ok? <==> a.Ok? && b.Ok? && Constructible(a.value, b.value))
            && (LoraCatAll(ls).Ok? ==> LoraCatAll(ls).value == Lora(a.value, b.value))
  {
    hide CatAll, Constructible;
  }

  lemma BatchCatIs(l: Lora, m: Lora)
    requires Constructible(l.a, l.b) && Constructible(m.a, m.b) && |l.a.shape| > 2
    ensures LoraCat(l, m) == if Cat(l.a, m.a).Err? then Err(Cat(l.a, m.a).error)
                             else if Cat(l.b, m.b).Err? then Err(Cat(l.b, m.b).error)
                             else Make(Cat(l.a, m.a).value, Cat(l.b, m.b).value)
  {
    hide Cat;
  }

  /** The last weight of a list joins what the others give: batches. */
  lemma CatAllStepBatch(ls: seq<Lora>)
    requires AllMeaningful(ls) && |ls| > 1 && LoraCatAll(ls).Ok? && |ls[0].a.shape| > 2
    ensures var k := |ls| - 1;
            && LoraCatAll(ls[..k]).Ok? && var l := LoraCatAll(ls[..k]).value;
            Constructible(l.a, l.b) && Meaningful(ls[k]) && LoraCat(l, ls[k]) == LoraCatAll(ls)
  {
    var k := |ls| - 1;
    var rest := ls[..k];
    assert rest[0] == ls[0] && Meaningful(ls[0]) && Meaningful(ls[k]);
    hide Cat, CatAll, Same, LoraCat, LoraCatAll, AllMeaningful;
    PrefixParts(ls);
    BatchesCatIs(ls);
    BatchesCatIs(rest);
    CatAllUnfolds(Firsts(ls));
    CatAllUnfolds(Seconds(ls));
    CatAllLengths(Firsts(rest), 0);
    CatAllLengths(Seconds(rest), 0);
    BatchCatIs(Lora(CatAll(Firsts(rest)).value, CatAll(Seconds(rest)).value), ls[k]);
  }

  /** Matrices. */
  lemma CatAllStepMatrix(ls: seq<Lora>)
    requires AllMeaningful(ls) && |ls| > 1 && LoraCatAll(ls).Ok? && |ls[0].a.shape| == 2
    ensures var k := |ls| - 1;
            && LoraCatAll(ls[..k]).Ok? && var l := LoraCatAll(ls[..k]).value;
            Constructible(l.a, l.b) && Meaningful(ls[k]) && LoraCat(l, ls[k]) == LoraCatAll(ls)
  {
    hide Cat, CatAll, Same;
    var rest := ls[..|ls| - 1];
    PrefixParts(ls);
    assert rest[0] == ls[0] && Meaningful(ls[0]) && Meaningful(ls[|ls| - 1]);
    CatAllUnfolds(Seconds(ls));
    CatAllLengths(Seconds(rest), 0);
    assert Same(ls[0].a, ls[|ls| - 1].a);
    assert SharedA(rest);
  }

  lemma CatAllStep(ls: seq<Lora>)
    requires AllMeaningful(ls) && |ls| > 1 && LoraCatAll(ls).Ok?
    ensures var k := |ls| - 1;
            && LoraCatAll(ls[..k]).Ok? && var l := LoraCatAll(ls[..k]).value;
            Constructible(l.a, l.b) && Meaningful(ls[k]) && LoraCat(l, ls[k]) == LoraCatAll(ls)
  {
    assert Meaningful(ls[0]);
    hide LoraCatAll, LoraCat;
    if |ls[0].a.shape| > 2 {
      CatAllStepBatch(ls);
    } else {
      CatAllStepMatrix(ls);
    }
  }

  lemma UnsharedSplit(ls: seq<Lora>)
    requires ls != [] && AllMeaningful(ls) && AllMeaningful(ls[..|ls| - 1])
    ensures AllUnshared(ls) <==> AllUnshared(ls[..|ls| - 1]) && Meaningful(ls[|ls| - 1]) && Unshared(ls[|ls| - 1])
  {
    hide Unshared, Meaningful;
    var rest := ls[..|ls| - 1];
    assert forall i {:trigger rest[i]} :: 0 <= i < |rest| ==> rest[i] == ls[i];
    assert forall i {:trigger ls[i]} :: 0 <= i < |rest| ==> rest[i] == ls[i];
  }

  lemma RankSplit(ls: seq<Lora>, rank: nat)
    requires ls != [] && AllMeaningful(ls) && AllMeaningful(ls[..|ls| - 1])
    ensures AllRank(ls, rank) <==>
            AllRank(ls[..|ls| - 1], rank) && Meaningful(ls[|ls| - 1]) && Rank(ls[|ls| - 1]) == rank
  {
    hide Rank, Meaningful;
    var rest := ls[..|ls| - 1];
    assert forall i {:trigger rest[i]} :: 0 <= i < |rest| ==> rest[i] == ls[i];
    assert forall i {:trigger ls[i]} :: 0 <= i < |rest| ==> rest[i] == ls[i];
  }

  /** One more weight, for a product that is known up to its entries outside. */
  lemma CatOneMore(t: Tensor, l: Lora, m: Lora)
    requires Meaningful(l) && Meaningful(m) && Joinable(l, m) && LoraCat(l, m).Ok?
    requires Same(t, Product(l))
    ensures var l' := LoraCat(l, m).value;
            && Meaningful(l') && (Unshared(l) && Unshared(m) ==> Unshared(l'))
            && Rank(l') == Rank(l) && Rank(m) == Rank(l)
            && Cat(t, Product(m)).Ok? && Same(Cat(t, Product(m)).value, Product(l'))
  {
    hide Cat, Same, Product, LoraCat, Unshared, Joinable, Rank;
    CatShapes(l, m);
    CatCommutes(l, m);
    SameSymmetric(t, Product(l));
    CatSame(Product(l), t, Product(m));
    SameSymmetric(Cat(Product(l), Product(m)).value, Cat(t, Product(m)).value);
    SameTransitive(Cat(t, Product(m)).value, Cat(Product(l), Product(m)).value, Product(LoraCat(l, m).value));
  }

  lemma {:induction false} CatAllLeading(ts: seq<Tensor>)
    requires CatAll(ts).Ok?
    ensures CatAll(ts).value.shape != [] && CatAll(ts).value.shape[0] == Leading(ts)
    decreases |ts|
  {
    hide Cat, CatAll;
    var k := |ts| - 1;
    if |ts| == 1 {
      CatOne(ts);
    } else if |ts| > 1 {
      CatAllUnfolds(ts);
      CatAllLeading(ts[..k]);
      CatLengths(CatAll(ts[..k]).value, ts[k]);
    } else {
      NothingToCat(ts);
    }
  }

  lemma NothingToCat(ts: seq<Tensor>)
    requires ts == []
    ensures CatAll(ts).Err?
  {
  }

  lemma LeadingStep(ls: seq<Lora>)
    requires AllMeaningful(ls) && Batches(ls) && ls != []
    ensures var k := |ls| - 1;
            && AllMeaningful(ls[..k]) && Batches(ls[..k]) && Meaningful(ls[k])
            && |ls[k].a.shape| > 2 && (ls[k].a.shape[0] == 1 || ls[k].a.shape[0] == ls[k].b.shape[0])
            && Leading(Firsts(ls)) == Leading(Firsts(ls[..k])) + ls[k].a.shape[0]
            && Leading(Seconds(ls)) == Leading(Seconds(ls[..k])) + ls[k].b.shape[0]
            && (AllUnshared(ls) <==> AllUnshared(ls[..k]) && ls[k].a.shape[0] == ls[k].b.shape[0])
  {
    var k := |ls| - 1;
    assert Meaningful(ls[k]) && |ls[k].a.shape| > 2 && Batches(ls[..k]);
    PrefixParts(ls);
    UnsharedSplit(ls);
    hide AllUnshared;
    assert Firsts(ls)[k] == ls[k].a && Seconds(ls)[k] == ls[k].b;
  }

  lemma NoneLead(ls: seq<Lora>)
    requires ls == []
    ensures AllMeaningful(ls) && AllUnshared(ls) && Leading(Firsts(ls)) == 0 && Leading(Seconds(ls)) == 0
  {
  }

  /** Without an A there is no B. */
  lemma {:induction false} NoFactors(ls: seq<Lora>)
    requires AllMeaningful(ls) && Batches(ls) && Leading(Firsts(ls)) == 0
    ensures AllUnshared(ls) && Leading(Seconds(ls)) == 0
    decreases |ls|
  {
    hide Leading, Firsts, Seconds, AllUnshared, AllMeaningful, Batches, Meaningful;
    if ls == [] {
      NoneLead(ls);
    } else {
      LeadingStep(ls);
      NoFactors(ls[..|ls| - 1]);
    }
  }

  /** A list with a single A ends with an empty batch, or with the batch of that A behind empty ones. */
  lemma SingleA(ls: seq<Lora>)
    requires AllMeaningful(ls) && Batches(ls) && |ls| > 1 && Leading(Firsts(ls)) == 1
    ensures var k := |ls| - 1;
            && AllMeaningful(ls[..k]) && Batches(ls[..k]) && Meaningful(ls[k])
            && (|| (EmptyBatch(ls[k]) && Leading(Firsts(ls[..k])) == 1)
                || (Leading(Firsts(ls[..k])) == 0 && AllUnshared(ls[..k]) && Leading(Seconds(ls[..k])) == 0))
  {
    hide Leading, Firsts, Seconds, AllUnshared;
    LeadingStep(ls);
    if ls[|ls| - 1].a.shape[0] == 1 {
      NoFactors(ls[..|ls| - 1]);
    }
  }

  lemma BatchLeads(ls: seq<Lora>)
    requires AllMeaningful(ls) && LoraCatAll(ls).Ok? && Batches(ls)
    ensures var l' := LoraCatAll(ls).value;
            && |l'.a.shape| > 2 && l'.a.shape[0] == Leading(Firsts(ls))
            && |l'.b.shape| > 2 && l'.b.shape[0] == Leading(Seconds(ls))
  {
    hide CatAll, Leading, Same;
    assert ls != [] && |ls[0].a.shape| > 2;
    CatAllLeading(Firsts(ls));
    CatAllLeading(Seconds(ls));
    CatAllLengths(Firsts(ls), 0);
  }

  /** What the others give can be joined with the last. */
  lemma FitsStep(ls: seq<Lora>)
    requires AllMeaningful(ls) && |ls| > 1 && CatFits(ls) && LoraCatAll(ls).Ok?
    requires AllMeaningful(ls[..|ls| - 1]) && LoraCatAll(ls[..|ls| - 1]).Ok?
    ensures var k := |ls| - 1;
            var l := LoraCatAll(ls[..k]).value;
            && CatFits(ls[..k]) && Meaningful(ls[k])
            && (Meaningful(l) && (AllUnshared(ls[..k]) ==> Unshared(l)) ==> Joinable(l, ls[k]))
  {
    hide LoraCatAll, Leading, Unshared, EmptyBatch, Firsts, Seconds, Meaningful;
    var k := |ls| - 1;
    UnsharedSplit(ls);
    assert Meaningful(ls[k]);
    if !AllUnshared(ls) {
      SingleA(ls);
      BatchLeads(ls[..k]);
      EmptyIs(LoraCatAll(ls[..k]).value);
    }
  }

  lemma EmptyIs(l: Lora)
    ensures Meaningful(l) && |l.a.shape| > 2 && l.a.shape[0] == 0 && l.b.shape[0] == 0 ==> EmptyBatch(l)
  {
  }

  /** Concatenating weights with the same A (matrices), or with one A per B (batches). */
  lemma {:induction false} CatAllCommutes(ls: seq<Lora>)
    requires AllMeaningful(ls) && CatFits(ls) && LoraCatAll(ls).Ok?
    ensures var l' := LoraCatAll(ls).value;
            && Meaningful(l') && AllRank(ls, Rank(l')) && (AllUnshared(ls) ==> Unshared(l'))
            && CatAll(Products(ls)).Ok? && Same(CatAll(Products(ls)).value, Product(l'))
    decreases |ls|
  {
    assert ls != [];
    hide Cat, CatAll, Same, Product, LoraCat, LoraCatAll, Unshared, Rank, Meaningful, AllUnshared, AllRank,
      AllMeaningful, Joinable, CatFits;
    var k := |ls| - 1;
    if k == 0 {
      CatAllOne(ls);
    } else {
      var rest := ls[..k];
      PrefixParts(ls);
      CatAllStep(ls);
      FitsStep(ls);
      var l := LoraCatAll(rest).value;
      UnsharedSplit(ls);
      RankSplit(ls, Rank(l));
      CatAllCommutes(rest);
      CatOneMore(CatAll(Products(rest)).value, l, ls[k]);
      CatAllLast(Products(ls));
    }
  }

  lemma CatAllLast(ts: seq<Tensor>)
    requires |ts| > 1 && CatAll(ts[..|ts| - 1]).Ok?
    ensures CatAll(ts) == Cat(CatAll(ts[..|ts| - 1]).value, ts[|ts| - 1])
  {
    hide Cat;
  }

  lemma CatAllOne(ls: seq<Lora>)
    requires AllMeaningful(ls) && |ls| == 1 && LoraCatAll(ls).Ok?
    ensures LoraCatAll(ls) == Ok(ls[0]) && CatAll(Products(ls)) == Ok(Product(ls[0]))
    ensures Same(Product(ls[0]), Product(ls[0])) && AllRank(ls, Rank(ls[0]))
    ensures AllUnshared(ls) ==> Unshared(ls[0])
  {
    assert Meaningful(ls[0]);
  }

  lemma CatAxes(ls: seq<Lora>, i: nat)
    requires AllMeaningful(ls) && LoraCatAll(ls).Ok? && i < |ls|
    ensures |ls[i].a.shape| == |ls[0].a.shape|
  {
    hide CatAll, Same;
    assert Meaningful(ls[0]) && Meaningful(ls[i]);
    CatAllLengths(Seconds(ls), 0);
    CatAllLengths(Seconds(ls), i);
  }

  /** The factors of batches that were concatenated fit each other exactly when there is a single A, or
      as many of them as of B. */
  lemma CatMeaningfulExactly(ls: seq<Lora>)
    requires AllMeaningful(ls) && LoraCatAll(ls).Ok? && Batches(ls)
    ensures Meaningful(LoraCatAll(ls).value) <==>
            Leading(Firsts(ls)) == 1 || Leading(Firsts(ls)) == Leading(Seconds(ls))
  {
    BatchLeads(ls);
    assert Meaningful(ls[0]) && |ls[0].a.shape| > 2;
    var l' := LoraCatAll(ls).value;
    hide Leading, CatAll, Same;
    CatAllLengths(Firsts(ls), 0);
    CatAllLengths(Seconds(ls), 0);
    assert forall i :: 1 <= i < |l'.a.shape| - 2 ==>
        l'.a.shape[i] == ls[0].a.shape[i] && l'.b.shape[i] == ls[0].b.shape[i];
  }

  /** There are as many A as B only because an empty batch brings an A that a shared one lacks. */
  predicate ByChance(ls: seq<Lora>)
    requires AllMeaningful(ls)
  {
    !CatFits(ls) && Batches(ls) && Leading(Firsts(ls)) == Leading(Seconds(ls))
  }

  /** So a concatenation whose factors fit each other is one that fits, unless by chance. */
  lemma CatFitsExactly(ls: seq<Lora>)
    requires AllMeaningful(ls) && LoraCatAll(ls).Ok? && !ByChance(ls)
    ensures Meaningful(LoraCatAll(ls).value) <==> CatFits(ls)
  {
    hide Leading, LoraCatAll, Meaningful, Unshared, Firsts, Seconds;
    if CatFits(ls) {
      CatAllCommutes(ls);
    } else {
      AllBatches(ls);
      CatMeaningfulExactly(ls);
    }
  }

  lemma AllBatches(ls: seq<Lora>)
    requires AllMeaningful(ls) && LoraCatAll(ls).Ok? && !AllUnshared(ls)
    ensures Batches(ls)
  {
    hide LoraCatAll;
    var j :| 0 <= j < |ls| && !Unshared(ls[j]);
    CatAxes(ls, j);
    forall i {:trigger ls[i]} | 0 <= i < |ls| ensures |ls[i].a.shape| > 2 {
      CatAxes(ls, i);
    }
  }

  predicate NoneEmpty(ls: seq<Lora>) {
    forall i {:trigger ls[i]} :: 0 <= i < |ls| ==> ls[i].b.shape != [] && ls[i].b.shape[0] > 0
  }

  /** Chance needs an empty batch. */
  lemma {:induction false} NoChance(ls: seq<Lora>)
    requires AllMeaningful(ls) && Batches(ls) && NoneEmpty(ls)
    ensures Leading(Firsts(ls)) <= Leading(Seconds(ls))
    ensures Leading(Firsts(ls)) == Leading(Seconds(ls)) <==> AllUnshared(ls)
    decreases |ls|
  {
    hide Leading, Firsts, Seconds, AllUnshared, AllMeaningful, Batches, Meaningful;
    if ls == [] {
      NoneLead(ls);
    } else {
      LeadingStep(ls);
      NoChance(ls[..|ls| - 1]);
    }
  }
}
