/** Chains of operations on a factored weight: working on the factors and multiplying at the end is
    the same as multiplying first. */
module LoraChains {
  import opened Wrappers
  import opened Tensor
  import opened Lora
  import opened LoraParts
  import opened LoraTuples
  import opened LoraJoins

  datatype Op =
    | DoReshape(shape: seq<int>)
    | DoPermute(dims: seq<int>)
    | DoTranspose(i: int, j: int)
    | DoSplit(size: SplitSize, dim: int, which: nat)
    | DoIndex(item: Item)
    | DoTuple(items: seq<Entry>)
    | DoScale(factor: Tensor)
    | DoStack(before: seq<Lora>, after: seq<Lora>)
    | DoCat(before: seq<Lora>, after: seq<Lora>)

  function Pick<T>(parts: Outcome<seq<T>>, which: nat): Outcome<T> {
    match parts
    case Err(e) => Err(e)
    case Ok(ps) => if which < |ps| then Ok(ps[which]) else Err(TorchError)
  }

  ghost function OnFactors(op: Op, l: Lora): Outcome<Lora>
    requires Meaningful(l)
  {
    match op
    case DoReshape(s) => LoraReshape(l, s)
    case DoPermute(d) => LoraPermute(l, d)
    case DoTranspose(i, j) => LoraTranspose(l, i, j)
    case DoSplit(s, d, w) => Pick(LoraSplit(l, s, d), w)
    case DoIndex(item) => if item.Single? then LoraIndex(l, item.j) else LoraPart(l, item)
    case DoTuple(items) => LoraTuple(l, items)
    case DoScale(f) => LoraScale(l, f)
    case DoStack(before, after) => LoraStack(before + [l] + after)
    case DoCat(before, after) => LoraCatAll(before + [l] + after)
  }

  /** The same operation on the product. */
  function OnDense(op: Op, t: Tensor): Outcome<Tensor> {
    match op
    case DoReshape(s) => DenseReshape(t, s)
    case DoPermute(d) => DensePermute(t, d)
    case DoTranspose(i, j) => DenseTranspose(t, i, j)
    case DoSplit(s, d, w) => Pick(DenseSplit(t, s, d), w)
    case DoIndex(item) => if item.Single? then Index(t, item.j) else DensePart(t, item)
    case DoTuple(items) => if |t.shape| < 2 then Err(TorchError) else DenseTuple(t, items)
    case DoScale(f) => Scale(t, f)
    case DoStack(before, after) =>
      if AllMeaningful(before) && AllMeaningful(after) then Stack(Products(before) + [t] + Products(after))
      else Err(AssertionFailed)
    case DoCat(before, after) =>
      if AllMeaningful(before) && AllMeaningful(after) then CatAll(Products(before) + [t] + Products(after))
      else Err(AssertionFailed)
  }

  lemma Joined(before: seq<Lora>, l: Lora, after: seq<Lora>)
    requires AllMeaningful(before) && AllMeaningful(after) && Meaningful(l)
    ensures AllMeaningful(before + [l] + after)
    ensures Products(before + [l] + after) == Products(before) + [Product(l)] + Products(after)
    ensures (before + [l] + after)[|before|] == l
  {
    hide Product;
    var ls := before + [l] + after;
    forall i | 0 <= i < |ls| ensures Meaningful(ls[i]) {
      assert ls[i] == if i < |before| then before[i] else if i == |before| then l else after[i - |before| - 1];
    }
    assert Products(ls) == Products(before) + [Product(l)] + Products(after);
  }

  /** When an accepted operation means the same on the factors. */
  predicate Proper(op: Op, l: Lora)
    requires Meaningful(l)
  {
    match op
    case DoReshape(s) => LoraReshape(l, s).Ok? ==> ReshapeFits(l, s)
    case DoPermute(d) => forall i :: 0 <= i < |d| ==> d[i] < |l.a.shape|
    case DoSplit(_, d, _) => -(|l.a.shape| as int) <= d < |l.a.shape|
    case DoIndex(item) => item.Part? && Positions(item, 0).Ok? ==> PartKeepsA(l, item)
    case DoTuple(items) =>
      var all := ClassItems(items, |l.a.shape|);
      all.Ok? && DenseItems(items, |l.a.shape|) == all && AxesFit(l, all.value)
    case DoStack(before, after) => AllMeaningful(before) && AllMeaningful(after)
    case DoCat(before, after) =>
      && AllMeaningful(before) && AllMeaningful(after)
      && (Joined(before, l, after); CatFits(before + [l] + after))
    case _ => true
  }

  lemma SwappedInRange(n: nat, i: int, j: int)
    requires Swapped(n, i, j).Ok?
    ensures |Swapped(n, i, j).value| == n && forall k :: 0 <= k < n ==> Swapped(n, i, j).value[k] < n
  {
  }

  lemma StackOpCommutes(before: seq<Lora>, l: Lora, after: seq<Lora>)
    requires AllMeaningful(before) && AllMeaningful(after) && Meaningful(l) && LoraStack(before + [l] + after).Ok?
    ensures var l' := LoraStack(before + [l] + after).value;
            var w := Stack(Products(before) + [Product(l)] + Products(after));
            Meaningful(l') && Rank(l') == Rank(l) && w.Ok? && Same(w.value, Product(l'))
  {
    hide Product, Same, LoraStack, Stack, AllMeaningful;
    Joined(before, l, after);
    StackCommutes(before + [l] + after);
  }

  lemma CatOpCommutes(before: seq<Lora>, l: Lora, after: seq<Lora>)
    requires AllMeaningful(before) && AllMeaningful(after) && Meaningful(l) && LoraCatAll(before + [l] + after).Ok?
    requires AllMeaningful(before + [l] + after) && CatFits(before + [l] + after)
    ensures var l' := LoraCatAll(before + [l] + after).value;
            var w := CatAll(Products(before) + [Product(l)] + Products(after));
            Meaningful(l') && Rank(l') == Rank(l) && w.Ok? && Same(w.value, Product(l'))
  {
    hide Product, Same, LoraCatAll, CatAll, CatFits, AllMeaningful;
    Joined(before, l, after);
    CatAllCommutes(before + [l] + after);
  }

  /** Every operation, on every weight that the class accepts it for. */
  lemma OpCommutes(op: Op, l: Lora)
    requires Meaningful(l) && Proper(op, l) && OnFactors(op, l).Ok?
    ensures var l' := OnFactors(op, l).value;
            && Meaningful(l') && Rank(l') == Rank(l)
            && OnDense(op, Product(l)).Ok? && Same(OnDense(op, Product(l)).value, Product(l'))
  {
    hide Product, LoraReshape, LoraPermute, LoraSplit, LoraIndex, LoraPart, LoraTuple, LoraScale, LoraStack,
      LoraCatAll,
      DenseReshape, DensePermute, DenseSplit, Index, DensePart, DenseTuple, Scale, Stack, CatAll, Swapped, Rank,
      Same, ReshapeFits, PartKeepsA, ClassItems, DenseItems, AxesFit, CatFits, AllMeaningful, Products;
    match op
    case DoReshape(s) => ReshapeCommutes(l, s);
    case DoPermute(d) => PermuteCommutes(l, d);
    case DoTranspose(i, j) =>
      SwappedInRange(|l.a.shape|, i, j);
      PermuteCommutes(l, Swapped(|l.a.shape|, i, j).value);
    case DoSplit(s, d, w) => SplitCommutes(l, s, d);
    case DoIndex(item) =>
      if item.Single? {
        IndexCommutes(l, item.j);
      } else {
        PartCommutes(l, item);
      }
    case DoTuple(items) => TupleCommutes(l, items);
    case DoScale(f) => ScaleCommutes(l, f);
    case DoStack(before, after) => StackOpCommutes(before, l, after);
    case DoCat(before, after) =>
      Joined(before, l, after);
      CatOpCommutes(before, l, after);
  }

  /** The condition is exact: an accepted operation that does not meet it leaves factors that do not fit
      each other, or the tensor refuses it, or means something else by it. Only joins of empty batches
      may come out right by chance. */
  lemma OpExactly(op: Op, l: Lora)
    requires Meaningful(l) && OnFactors(op, l).Ok?
    requires op.DoCat? && AllMeaningful(op.before) && AllMeaningful(op.after) ==>
               (Joined(op.before, l, op.after); !ByChance(op.before + [l] + op.after))
    requires op.DoTuple? ==> DenseItems(op.items, |l.a.shape|) == ClassItems(op.items, |l.a.shape|)
    ensures Proper(op, l) <==>
            var l', w := OnFactors(op, l).value, OnDense(op, Product(l));
            Meaningful(l') && w.Ok? && Same(w.value, Product(l'))
  {
    if Proper(op, l) {
      OpCommutes(op, l);
    } else {
      OpMisfits(op, l);
    }
  }

  lemma OpMisfits(op: Op, l: Lora)
    requires Meaningful(l) && OnFactors(op, l).Ok? && !Proper(op, l)
    requires op.DoCat? && AllMeaningful(op.before) && AllMeaningful(op.after) ==>
               (Joined(op.before, l, op.after); !ByChance(op.before + [l] + op.after))
    requires op.DoTuple? ==> DenseItems(op.items, |l.a.shape|) == ClassItems(op.items, |l.a.shape|)
    ensures var l', w := OnFactors(op, l).value, OnDense(op, Product(l));
            !(Meaningful(l') && w.Ok? && Same(w.value, Product(l')))
  {
    hide Product, LoraReshape, LoraPermute, LoraSplit, LoraPart, LoraTuple, LoraCatAll,
      DenseReshape, DensePermute, DenseSplit, DensePart, DenseTuple, CatAll, Stack, Rank,
      Same, ReshapeFits, PartKeepsA, ClassItems, DenseItems, AxesFit, CatFits, ByChance, AllMeaningful, Products;
    match op
    case DoReshape(s) => ReshapeCommutes(l, s);
    case DoPermute(d) => PermuteCommutes(l, d);
    case DoSplit(s, d, w) => SplitOutside(l, s, d);
    case DoIndex(item) => if !item.Single? { PartCommutes(l, item); }
    case DoTuple(items) => TupleExactly(l, items);
    case DoCat(before, after) =>
      if AllMeaningful(before) && AllMeaningful(after) {
        Joined(before, l, after);
        CatFitsExactly(before + [l] + after);
      }
    case _ =>
  }

  lemma AroundSame(before: seq<Tensor>, t: Tensor, u: Tensor, after: seq<Tensor>)
    requires Same(t, u)
    ensures AllSame(before + [t] + after, before + [u] + after)
  {
    hide Same;
    var ts, us := before + [t] + after, before + [u] + after;
    forall i {:trigger ts[i]} | 0 <= i < |ts| ensures Same(ts[i], us[i]) {
      if i != |before| {
        assert ts[i] == us[i];
        SameReflexive(ts[i]);
      }
    }
  }

  lemma OnDenseSame(op: Op, t: Tensor, u: Tensor)
    requires Same(t, u) && OnDense(op, t).Ok?
    ensures OnDense(op, u).Ok? && Same(OnDense(op, t).value, OnDense(op, u).value)
  {
    hide Product, Reshape, Permute, Take, Index, IndexAxis, DenseAxes, Scale, Stack, CatAll, Swapped, Chunks, Resolve,
      Same, AllSame, AllMeaningful, Products;
    assert t.shape == u.shape by { SameShape(t, u); }
    match op
    case DoReshape(s) => ReshapeSame(t, u, ToNats(Resolve(t.shape, s).value));
    case DoPermute(d) => PermuteSame(t, u, Axes(d, |t.shape|));
    case DoTranspose(i, j) => PermuteSame(t, u, Axes(Swapped(|t.shape|, i, j).value, |t.shape|));
    case DoSplit(s, d, w) =>
      var x := Normal(d, |t.shape|).value;
      var c := Chunks(s, t.shape[x]).value[w];
      TakeSame(t, u, x, c);
    case DoIndex(item) =>
      if item.Single? {
        IndexSame(t, u, item.j);
      } else {
        IndexAxisSame(t, u, 0, item);
      }
    case DoTuple(items) => DenseAxesSame(t, u, DenseItems(items, |t.shape|).value);
    case DoScale(f) => ScaleSame(t, u, f);
    case DoStack(before, after) =>
      AroundSame(Products(before), t, u, Products(after));
      StackSame(Products(before) + [t] + Products(after), Products(before) + [u] + Products(after));
    case DoCat(before, after) =>
      AroundSame(Products(before), t, u, Products(after));
      CatAllSame(Products(before) + [t] + Products(after), Products(before) + [u] + Products(after));
  }

  ghost function ChainOnFactors(ops: seq<Op>, l: Lora): Outcome<Lora>
    decreases |ops|
  {
    if ops == [] then Ok(l)
    else if !Meaningful(l) then Err(AssertionFailed)
    else match OnFactors(ops[0], l)
      case Err(e) => Err(e)
      case Ok(l') => ChainOnFactors(ops[1..], l')
  }

  function ChainOnDense(ops: seq<Op>, t: Tensor): Outcome<Tensor>
    decreases |ops|
  {
    if ops == [] then Ok(t)
    else match OnDense(ops[0], t)
      case Err(e) => Err(e)
      case Ok(t') => ChainOnDense(ops[1..], t')
  }

  ghost predicate ProperChain(ops: seq<Op>, l: Lora)
    decreases |ops|
  {
    ops == [] ||
    (Meaningful(l) && Proper(ops[0], l) &&
     (OnFactors(ops[0], l).Ok? ==> ProperChain(ops[1..], OnFactors(ops[0], l).value)))
  }

  lemma {:induction false} ChainSame(ops: seq<Op>, t: Tensor, u: Tensor)
    requires Same(t, u) && ChainOnDense(ops, t).Ok?
    ensures ChainOnDense(ops, u).Ok? && Same(ChainOnDense(ops, t).value, ChainOnDense(ops, u).value)
    decreases |ops|
  {
    hide OnDense, Same;
    if ops != [] {
      OnDenseSame(ops[0], t, u);
      ChainSame(ops[1..], OnDense(ops[0], t).value, OnDense(ops[0], u).value);
    }
  }

  /** For every chain of operations, every weight and every shape: working on the factors and
      multiplying at the end is the same as multiplying first. */
  lemma {:induction false} ChainCommutes(ops: seq<Op>, l: Lora)
    requires Meaningful(l) && ProperChain(ops, l) && ChainOnFactors(ops, l).Ok?
    ensures var l' := ChainOnFactors(ops, l).value;
            && Meaningful(l') && Rank(l') == Rank(l)
            && ChainOnDense(ops, Product(l)).Ok?
            && Same(ChainOnDense(ops, Product(l)).value, Product(l'))
    decreases |ops|
  {
    hide OnDense, OnFactors, Same, Product, Rank, Proper;
    if ops == [] {
      SameReflexive(Product(l));
    } else {
      OpCommutes(ops[0], l);
      var l1 := OnFactors(ops[0], l).value;
      var t1 := OnDense(ops[0], Product(l)).value;
      ChainCommutes(ops[1..], l1);
      SameSymmetric(t1, Product(l1));
      ChainSame(ops[1..], Product(l1), t1);
      var end := ChainOnDense(ops[1..], Product(l1)).value;
      SameSymmetric(end, ChainOnDense(ops[1..], t1).value);
      SameTransitive(ChainOnDense(ops[1..], t1).value, end, Product(ChainOnFactors(ops, l).value));
    }
  }
}
