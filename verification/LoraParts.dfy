/** Parts of a factored weight: splitting along an axis, single positions and slices. What works on
    the factors must mean the same as on the product. */
module LoraParts {
  import opened Wrappers
  import opened Tensor
  import opened Lora

  // ----- positions along an axis -----

  /** Factors that are equal where it matters have equal products. */
  lemma ProductSame(l: Lora, m: Lora)
    requires Meaningful(l) && Same(l.a, m.a) && Same(l.b, m.b)
    ensures Meaningful(m) && Rank(m) == Rank(l) && Shape(m) == Shape(l) && Same(Product(l), Product(m))
  {
    forall idx | Within(Shape(l), idx) ensures Product(l).at(idx) == Product(m).at(idx) {
      forall k: nat | k < Rank(l) ensures Term(l, idx)(k) == Term(m, idx)(k) {
        FactorIndexes(l, idx, k);
      }
      SumSame(Rank(l), Term(l, idx), Term(m, idx));
    }
  }

  lemma FactorIndexes(l: Lora, idx: seq<nat>, k: nat)
    requires Meaningful(l) && Within(Shape(l), idx) && k < Rank(l)
    ensures Within(l.b.shape, IndexB(idx, k)) && Within(l.a.shape, IndexA(l.a.shape, idx, k))
  {
    var n := |l.a.shape|;
    forall i | 0 <= i < n - 1 ensures idx[i] < l.b.shape[i] {
      assert Shape(l)[i] == l.b.shape[i];
    }
    assert Shape(l)[n - 1] == l.a.shape[n - 1];
  }

  /** The factors of some positions along an axis. */
  function LoraTake(l: Lora, d: nat, js: seq<nat>): (r: Lora)
    requires Meaningful(l) && d < |l.a.shape| && AllBelow(js, Shape(l)[d])
    ensures Constructible(r.a, r.b)
  {
    var n := |l.a.shape|;
    if d == n - 1 then Lora(Take(l.a, d, js), l.b)
    else if d == n - 2 || l.a.shape[d] == 1 then Lora(l.a, Take(l.b, d, js))
    else Lora(Take(l.a, d, js), Take(l.b, d, js))
  }

  lemma TakenShapes(l: Lora, d: nat, js: seq<nat>)
    requires Meaningful(l) && d < |l.a.shape| && AllBelow(js, Shape(l)[d])
    ensures var l' := LoraTake(l, d, js);
            Meaningful(l') && Rank(l') == Rank(l) && Shape(l') == Shape(l)[d := |js|]
  {
    assert Shape(LoraTake(l, d, js)) == Shape(l)[d := |js|];
  }

  lemma TakenColumn(l: Lora, js: seq<nat>, idx: seq<nat>, k: nat)
    requires Meaningful(l) && AllBelow(js, Shape(l)[|l.a.shape| - 1])
    requires |idx| == |l.a.shape| && idx[|idx| - 1] < |js|
    ensures var d := |idx| - 1; Term(LoraTake(l, d, js), idx)(k) == Term(l, idx[d := js[idx[d]]])(k)
  {
    var d := |idx| - 1;
    var u, l' := idx[d := js[idx[d]]], LoraTake(l, d, js);
    assert IndexB(idx, k) == IndexB(u, k);
    assert IndexA(l'.a.shape, idx, k)[d := js[idx[d]]] == IndexA(l.a.shape, u, k);
  }

  lemma TakenRow(l: Lora, d: nat, js: seq<nat>, idx: seq<nat>, k: nat)
    requires Meaningful(l) && d < |l.a.shape| - 1 && AllBelow(js, Shape(l)[d])
    requires |idx| == |l.a.shape| && idx[d] < |js|
    ensures Term(LoraTake(l, d, js), idx)(k) == Term(l, idx[d := js[idx[d]]])(k)
  {
    var n := |l.a.shape|;
    var u, l' := idx[d := js[idx[d]]], LoraTake(l, d, js);
    assert IndexB(idx, k)[d := js[idx[d]]] == IndexB(u, k);
    if d == n - 2 || l.a.shape[d] == 1 {
      assert IndexA(l.a.shape, idx, k) == IndexA(l.a.shape, u, k);
    } else {
      assert l.a.shape[d] == l.b.shape[d] == Shape(l)[d];
      TakenIndexA(l.a.shape, d, js, idx, k);
    }
  }

  lemma TakenIndexA(shape: seq<nat>, d: nat, js: seq<nat>, idx: seq<nat>, k: nat)
    requires d < |shape| - 2 && |idx| == |shape| && AllBelow(js, shape[d]) && idx[d] < |js| && shape[d] != 1
    ensures var ia := IndexA(shape[d := |js|], idx, k);
            ia[d] == idx[d] && ia[d := js[idx[d]]] == IndexA(shape, idx[d := js[idx[d]]], k)
  {
    assert |js| == 1 ==> idx[d] == 0;
  }

  /** The product of the taken part is the taken part of the product, along every axis. */
  lemma TakeCommutes(l: Lora, d: nat, js: seq<nat>)
    requires Meaningful(l) && d < |l.a.shape| && AllBelow(js, Shape(l)[d])
    ensures var l' := LoraTake(l, d, js);
            Meaningful(l') && Rank(l') == Rank(l) && Same(Take(Product(l), d, js), Product(l'))
  {
    hide Term, LoraTake;
    var l' := LoraTake(l, d, js);
    TakenShapes(l, d, js);
    var w := Take(Product(l), d, js);
    forall idx | Within(w.shape, idx) ensures w.at(idx) == Product(l').at(idx) {
      assert idx[d] < |js|;
      var u := idx[d := js[idx[d]]];
      forall k: nat | k < Rank(l) ensures Term(l', idx)(k) == Term(l, u)(k) {
        if d == |l.a.shape| - 1 {
          TakenColumn(l, js, idx, k);
        } else {
          TakenRow(l, d, js, idx, k);
        }
      }
      SumSame(Rank(l), Term(l', idx), Term(l, u));
    }
  }

  lemma TakeWhole(t: Tensor, d: nat)
    requires d < |t.shape|
    ensures Same(t, Take(t, d, Interval(0, t.shape[d])))
  {
    var js := Interval(0, t.shape[d]);
    assert t.shape[d := t.shape[d]] == t.shape;
    forall idx | Within(t.shape, idx) ensures t.at(idx) == Take(t, d, js).at(idx) {
      assert idx[d := js[idx[d]]] == idx;
    }
  }

  // ----- split -----

  datatype SplitSize = Every(size: nat) | Sizes(sizes: seq<nat>)

  function SumOf(ss: seq<nat>): nat {
    if ss == [] then 0 else ss[0] + SumOf(ss[1..])
  }

  /** Neighbouring parts of the given sizes. */
  function ChunksFrom(ss: seq<nat>, lo: nat): (r: seq<seq<nat>>)
    ensures |r| == |ss|
    ensures forall i :: 0 <= i < |r| ==> |r[i]| == ss[i] && AllBelow(r[i], lo + SumOf(ss))
  {
    if ss == [] then [] else [Interval(lo, ss[0])] + ChunksFrom(ss[1..], lo + ss[0])
  }

  function EvenSizes(size: nat, len: nat): (r: seq<nat>)
    requires size > 0
    ensures SumOf(r) == len
    decreases len
  {
    if len <= size then [len] else [size] + EvenSizes(size, len - size)
  }

  predicate AllInside(cs: seq<seq<nat>>, len: nat) {
    forall i :: 0 <= i < |cs| ==> AllBelow(cs[i], len)
  }

  /** The parts that `split` cuts an axis of the given length into. */
  function Chunks(size: SplitSize, len: nat): (r: Outcome<seq<seq<nat>>>)
    ensures r.Ok? ==> AllInside(r.value, len)
  {
    match size
    case Every(s) =>
      if s > 0 then Ok(ChunksFrom(EvenSizes(s, len), 0))
      else if len == 0 then Ok([[]])
      else Err(TorchError)
    case Sizes(ss) => if SumOf(ss) == len then Ok(ChunksFrom(ss, 0)) else Err(TorchError)
  }

  function Takes(t: Tensor, d: nat, cs: seq<seq<nat>>): (r: seq<Tensor>)
    requires d < |t.shape| && AllInside(cs, t.shape[d])
    ensures |r| == |cs| && forall i :: 0 <= i < |r| ==> r[i] == Take(t, d, cs[i])
  {
    seq(|cs|, i requires 0 <= i < |cs| => Take(t, d, cs[i]))
  }

  /** One weight for each pair; the longer list is cut. */
  function MakeEach(as_: seq<Tensor>, bs: seq<Tensor>): (r: Outcome<seq<Lora>>)
    ensures r.Ok? ==> |r.value| == if |as_| < |bs| then |as_| else |bs|
    ensures r.Ok? ==> forall i :: 0 <= i < |r.value| ==>
                        r.value[i] == Lora(as_[i], bs[i]) && Constructible(as_[i], bs[i])
  {
    if as_ == [] || bs == [] then Ok([])
    else match Make(as_[0], bs[0])
         case Err(e) => Err(e)
         case Ok(l) =>
           match MakeEach(as_[1..], bs[1..])
           case Err(e) => Err(e)
           case Ok(ls) => Ok([l] + ls)
  }

  /** The class adds the number of axes once; what is still negative torch reads from the end again. */
  function LoraSplit(l: Lora, size: SplitSize, dim: int): Outcome<seq<Lora>>
    requires Constructible(l.a, l.b)
  {
    var n := |l.a.shape|;
    var d := if dim < 0 then dim + n else dim;
    if d == n - 1 then
      match Chunks(size, l.a.shape[n - 1])
      case Err(e) => Err(e)
      case Ok(cs) => MakeEach(Takes(l.a, n - 1, cs), seq(|cs|, _ => l.b))
    else if d == n - 2 then
      match Chunks(size, l.b.shape[n - 2])
      case Err(e) => Err(e)
      case Ok(cs) => MakeEach(seq(|cs|, _ => l.a), Takes(l.b, n - 2, cs))
    else match Normal(d, n)
      case Err(e) => Err(e)
      case Ok(x) =>
        match Chunks(size, l.b.shape[x])
        case Err(e) => Err(e)
        case Ok(bs) =>
          if l.a.shape[x] == 1 then MakeEach(seq(|bs|, _ => l.a), Takes(l.b, x, bs))
          else match Chunks(size, l.a.shape[x])
            case Err(e) => Err(e)
            case Ok(cs) => MakeEach(Takes(l.a, x, cs), Takes(l.b, x, bs))
  }

  function DenseSplit(t: Tensor, size: SplitSize, dim: int): Outcome<seq<Tensor>> {
    match Normal(dim, |t.shape|)
    case Err(e) => Err(e)
    case Ok(d) =>
      match Chunks(size, t.shape[d])
      case Err(e) => Err(e)
      case Ok(cs) => Ok(Takes(t, d, cs))
  }

  /** What `MakeEach` needs. */
  lemma {:induction false} MakesEach(as_: seq<Tensor>, bs: seq<Tensor>)
    requires |as_| == |bs| && forall i :: 0 <= i < |as_| ==> Constructible(as_[i], bs[i])
    ensures MakeEach(as_, bs).Ok? && |MakeEach(as_, bs).value| == |as_|
    decreases |as_|
  {
    if as_ != [] {
      assert Constructible(as_[0], bs[0]);
      forall i | 0 <= i < |as_| - 1 ensures Constructible(as_[1..][i], bs[1..][i]) {
        assert Constructible(as_[i + 1], bs[i + 1]);
      }
      MakesEach(as_[1..], bs[1..]);
    }
  }

  /** The factors of all parts along an axis. */
  function PartsA(l: Lora, d: nat, cs: seq<seq<nat>>): (r: seq<Tensor>)
    requires Meaningful(l) && d < |l.a.shape| && AllInside(cs, Shape(l)[d])
    ensures |r| == |cs|
  {
    var n := |l.a.shape|;
    if d == n - 1 || (d < n - 2 && l.a.shape[d] != 1) then
      assert Shape(l)[d] == l.a.shape[d];
      Takes(l.a, d, cs)
    else seq(|cs|, _ => l.a)
  }

  function PartsB(l: Lora, d: nat, cs: seq<seq<nat>>): (r: seq<Tensor>)
    requires Meaningful(l) && d < |l.a.shape| && AllInside(cs, Shape(l)[d])
    ensures |r| == |cs|
  {
    if d == |l.a.shape| - 1 then seq(|cs|, _ => l.b)
    else
      assert Shape(l)[d] == l.b.shape[d];
      Takes(l.b, d, cs)
  }

  lemma PartIsChunk(l: Lora, d: nat, cs: seq<seq<nat>>, i: nat)
    requires Meaningful(l) && d < |l.a.shape| && AllInside(cs, Shape(l)[d])
    requires i < |cs|
    ensures Lora(PartsA(l, d, cs)[i], PartsB(l, d, cs)[i]) == LoraTake(l, d, cs[i])
    ensures Constructible(PartsA(l, d, cs)[i], PartsB(l, d, cs)[i])
  {
    hide Take;
  }

  lemma SplitMakes(l: Lora, size: SplitSize, dim: int)
    requires Meaningful(l) && -(|l.a.shape| as int) <= dim < |l.a.shape|
    ensures var d := Normal(dim, |l.a.shape|).value;
            var cs := Chunks(size, Shape(l)[d]);
            LoraSplit(l, size, dim) ==
            if cs.Err? then Err(cs.error) else MakeEach(PartsA(l, d, cs.value), PartsB(l, d, cs.value))
  {
    hide Takes, Chunks, MakeEach;
  }

  /** Within the range that the tensor itself knows, the parts are the chunks of the factors. */
  lemma SplitIs(l: Lora, size: SplitSize, dim: int)
    requires Meaningful(l) && -(|l.a.shape| as int) <= dim < |l.a.shape|
    ensures var d := Normal(dim, |l.a.shape|).value;
            var cs := Chunks(size, Shape(l)[d]);
            && (LoraSplit(l, size, dim).Ok? <==> cs.Ok?)
            && (cs.Ok? ==> && |LoraSplit(l, size, dim).value| == |cs.value|
                           && forall i :: 0 <= i < |cs.value| ==>
                                LoraSplit(l, size, dim).value[i] == LoraTake(l, d, cs.value[i]))
  {
    SplitMakes(l, size, dim);
    hide LoraSplit, LoraTake, PartsA, PartsB, Chunks, MakeEach, Constructible;
    var d := Normal(dim, |l.a.shape|).value;
    if Chunks(size, Shape(l)[d]).Ok? {
      var cs := Chunks(size, Shape(l)[d]).value;
      forall i | 0 <= i < |cs|
        ensures Lora(PartsA(l, d, cs)[i], PartsB(l, d, cs)[i]) == LoraTake(l, d, cs[i])
        ensures Constructible(PartsA(l, d, cs)[i], PartsB(l, d, cs)[i])
      {
        PartIsChunk(l, d, cs, i);
      }
      MakesEach(PartsA(l, d, cs), PartsB(l, d, cs));
    }
  }

  /** Along every axis that the tensor itself knows: the factors split exactly when the product does,
      and into the same parts. */
  lemma SplitCommutes(l: Lora, size: SplitSize, dim: int)
    requires Meaningful(l) && -(|l.a.shape| as int) <= dim < |l.a.shape|
    ensures LoraSplit(l, size, dim).Ok? <==> DenseSplit(Product(l), size, dim).Ok?
    ensures LoraSplit(l, size, dim).Ok? ==>
              var (ls, ws) := (LoraSplit(l, size, dim).value, DenseSplit(Product(l), size, dim).value);
              && |ls| == |ws|
              && forall i :: 0 <= i < |ls| ==>
                   Meaningful(ls[i]) && Rank(ls[i]) == Rank(l) && Same(ws[i], Product(ls[i]))
  {
    SplitIs(l, size, dim);
    hide LoraTake, Take, LoraSplit, Chunks, Meaningful, Same, Product, Rank;
    var d := Normal(dim, |l.a.shape|).value;
    if Chunks(size, Shape(l)[d]).Ok? {
      var cs := Chunks(size, Shape(l)[d]).value;
      forall i | 0 <= i < |cs|
        ensures var l' := LoraTake(l, d, cs[i]);
                Meaningful(l') && Rank(l') == Rank(l) && Same(Take(Product(l), d, cs[i]), Product(l'))
      {
        TakeCommutes(l, d, cs[i]);
      }
    }
  }

  lemma {:induction false} MakesExactly(as_: seq<Tensor>, bs: seq<Tensor>)
    ensures MakeEach(as_, bs).Ok? <==> forall i :: 0 <= i < |as_| && i < |bs| ==> Constructible(as_[i], bs[i])
    decreases |as_|
  {
    hide Constructible;
    if as_ != [] && bs != [] {
      MakesExactly(as_[1..], bs[1..]);
      assert forall i :: 0 < i < |as_| && i < |bs| ==> as_[i] == as_[1..][i - 1] && bs[i] == bs[1..][i - 1];
    }
  }

  /** When the class accepts an axis that it reads a second time, as `x`: no part may cut the rank. */
  predicate ReadAgain(l: Lora, size: SplitSize, x: nat)
    requires Meaningful(l) && x < |l.a.shape|
  {
    var n, bs, cs := |l.a.shape|, Chunks(size, l.b.shape[x]), Chunks(size, l.a.shape[x]);
    && bs.Ok? && (l.a.shape[x] != 1 ==> cs.Ok?)
    && forall i :: 0 <= i < |bs.value| && (l.a.shape[x] != 1 ==> i < |cs.value|) ==>
         && (x == n - 1 ==> |bs.value[i]| == Rank(l))
         && (x == n - 2 && Rank(l) != 1 ==> |cs.value[i]| == Rank(l))
  }

  /** Outside that range the tensor refuses every axis, and the class those beyond twice the number of
      axes. The others it reads a second time. */
  lemma SplitOutside(l: Lora, size: SplitSize, dim: int)
    requires Meaningful(l) && !(-(|l.a.shape| as int) <= dim < |l.a.shape|)
    ensures DenseSplit(Product(l), size, dim).Err?
    ensures LoraSplit(l, size, dim).Ok? <==> -2 * |l.a.shape| <= dim < 0 && ReadAgain(l, size, dim + 2 * |l.a.shape|)
  {
    hide Product, Chunks, MakeEach, ReadAgain;
    var n := |l.a.shape|;
    if -2 * n <= dim < 0 {
      SplitAgain(l, size, dim + 2 * n);
    }
  }

  lemma SplitAgain(l: Lora, size: SplitSize, x: nat)
    requires Meaningful(l) && x < |l.a.shape|
    ensures LoraSplit(l, size, x - 2 * |l.a.shape|).Ok? <==> ReadAgain(l, size, x)
  {
    hide Chunks, MakeEach, Take;
    var bs, cs := Chunks(size, l.b.shape[x]), Chunks(size, l.a.shape[x]);
    if bs.Ok? {
      if l.a.shape[x] == 1 {
        MakesExactly(seq(|bs.value|, _ => l.a), Takes(l.b, x, bs.value));
      } else if cs.Ok? {
        MakesExactly(Takes(l.a, x, cs.value), Takes(l.b, x, bs.value));
      }
    }
  }

  lemma FirstPart(size: nat, len: nat)
    requires 0 < size
    ensures var cs := Chunks(Every(size), len).value;
            && |cs| > 0 && cs[0] == Interval(0, if len <= size then len else size)
            && (len <= size ==> cs == [Interval(0, len)])
  {
    assert [len][1..] == [];
  }

  /** For a matrix the axis -3 is read as its last one: B is split along its rank and A along its columns,
      and only the first pair is kept. What is lost is every column but the first ones. */
  lemma SplitLosesColumns(l: Lora, size: nat)
    requires Meaningful(l) && |l.a.shape| == 2 && 0 < Rank(l) <= size < l.a.shape[1]
    ensures DenseSplit(Product(l), Every(size), -3).Err?
    ensures var r := LoraSplit(l, Every(size), -3);
            && r.Ok? && |r.value| == 1 && Meaningful(r.value[0])
            && Shape(l)[1] == l.a.shape[1]
            && Same(Take(Product(l), 1, Interval(0, size)), Product(r.value[0]))
  {
    var bs, cs := Chunks(Every(size), l.b.shape[1]).value, Chunks(Every(size), l.a.shape[1]).value;
    FirstPart(size, l.b.shape[1]);
    FirstPart(size, l.a.shape[1]);
    hide Chunks, Take, Product, Same;
    var as_, bs' := Takes(l.a, 1, cs), Takes(l.b, 1, bs);
    assert Constructible(as_[0], bs'[0]);
    assert bs'[1..] == [] && MakeEach(as_[1..], bs'[1..]) == Ok([]);
    assert MakeEach(as_, bs') == Ok([Lora(as_[0], bs'[0])] + []);
    hide MakeEach;
    assert LoraSplit(l, Every(size), -3) == MakeEach(as_, bs');
    assert Shape(l)[1] == l.a.shape[1];
    TakeCommutes(l, 1, Interval(0, size));
    TakeWhole(l.b, 1);
    SameReflexive(as_[0]);
    var m := Lora(as_[0], l.b);
    ProductSame(m, Lora(as_[0], bs'[0]));
    SameTransitive(Take(Product(l), 1, Interval(0, size)), Product(m), Product(Lora(as_[0], bs'[0])));
  }

  // ----- one position or part of an axis -----

  function LoraIndex(l: Lora, j: int): Outcome<Lora>
    requires Constructible(l.a, l.b)
  {
    if |l.a.shape| <= 2 then Err(NotImplemented)
    else match Index(l.a, j)
      case Err(e) => Err(e)
      case Ok(a) =>
        match Index(l.b, j)
        case Err(e) => Err(e)
        case Ok(b) => Make(a, b)
  }

  lemma SelectedTerm(l: Lora, l': Lora, d: nat, ja: nat, jb: nat, idx: seq<nat>, k: nat)
    requires Meaningful(l) && d < |l.a.shape| - 2 && ja < l.a.shape[d] && jb < l.b.shape[d]
    requires l' == Lora(Select(l.a, d, ja), Select(l.b, d, jb)) && |idx| == |l.a.shape| - 1
    requires l.a.shape[d] == l.b.shape[d] && l.a.shape[d] > 1 ==> ja == jb
    ensures Constructible(l'.a, l'.b) && Term(l', idx)(k) == Term(l, idx[..d] + [jb] + idx[d..])(k)
  {
    var n, u := |l.a.shape|, idx[..d] + [jb] + idx[d..];
    var ib, ia := IndexB(idx, k), IndexA(l'.a.shape, idx, k);
    assert ib[..d] + [jb] + ib[d..] == IndexB(u, k);
    forall i | 0 <= i < n ensures (ia[..d] + [ja] + ia[d..])[i] == IndexA(l.a.shape, u, k)[i] {
      assert i < d ==> l'.a.shape[i] == l.a.shape[i] && u[i] == idx[i];
      assert d < i < n - 2 ==> l'.a.shape[i - 1] == l.a.shape[i] && u[i] == idx[i - 1];
    }
    assert ia[..d] + [ja] + ia[d..] == IndexA(l.a.shape, u, k);
  }

  lemma SelectedShapes(l: Lora, d: nat, ja: nat, jb: nat)
    requires Meaningful(l) && d < |l.a.shape| - 2 && ja < l.a.shape[d] && jb < l.b.shape[d]
    ensures var l' := Lora(Select(l.a, d, ja), Select(l.b, d, jb));
            Meaningful(l') && Rank(l') == Rank(l) && Shape(l') == Shape(l)[..d] + Shape(l)[d + 1..]
  {
    var l' := Lora(Select(l.a, d, ja), Select(l.b, d, jb));
    var n := |l.a.shape|;
    forall i | 0 <= i < n - 3 ensures l'.a.shape[i] == 1 || l'.a.shape[i] == l'.b.shape[i] {
      assert i < d ==> l'.a.shape[i] == l.a.shape[i] && l'.b.shape[i] == l.b.shape[i];
      assert i >= d ==> l'.a.shape[i] == l.a.shape[i + 1] && l'.b.shape[i] == l.b.shape[i + 1];
    }
    assert Shape(l') == Shape(l)[..d] + Shape(l)[d + 1..];
  }

  lemma SelectCommutes(l: Lora, d: nat, ja: nat, jb: nat)
    requires Meaningful(l) && d < |l.a.shape| - 2 && ja < l.a.shape[d] && jb < l.b.shape[d]
    requires l.a.shape[d] == l.b.shape[d] && l.a.shape[d] > 1 ==> ja == jb
    ensures var l' := Lora(Select(l.a, d, ja), Select(l.b, d, jb));
            && Meaningful(l') && Rank(l') == Rank(l) && |l'.a.shape| == |l.a.shape| - 1
            && Same(Select(Product(l), d, jb), Product(l'))
  {
    hide Term;
    var l' := Lora(Select(l.a, d, ja), Select(l.b, d, jb));
    var w := Select(Product(l), d, jb);
    SelectedShapes(l, d, ja, jb);
    forall idx | Within(w.shape, idx) ensures w.at(idx) == Product(l').at(idx) {
      var u := idx[..d] + [jb] + idx[d..];
      forall k: nat | k < Rank(l) ensures Term(l', idx)(k) == Term(l, u)(k) {
        SelectedTerm(l, l', d, ja, jb, idx, k);
      }
      SumSame(Rank(l), Term(l', idx), Term(l, u));
    }
  }

  /** An index is accepted exactly for a batch, when the tensor has it and so has A, which a batch that
      shares its A has for its first and last matrix only; it then picks the right matrix. */
  lemma IndexCommutes(l: Lora, j: int)
    requires Meaningful(l)
    ensures LoraIndex(l, j).Ok? <==>
            && |l.a.shape| > 2 && Index(Product(l), j).Ok?
            && (l.a.shape[0] == l.b.shape[0] || j == 0 || j == -1)
    ensures LoraIndex(l, j).Ok? ==>
              var l' := LoraIndex(l, j).value;
              Meaningful(l') && Rank(l') == Rank(l) && Same(Index(Product(l), j).value, Product(l'))
  {
    hide Product, Select;
    assert Shape(l)[0] == l.b.shape[0];
    if |l.a.shape| > 2 && Normal(j, l.a.shape[0]).Ok? && Normal(j, l.b.shape[0]).Ok? {
      SelectCommutes(l, 0, Normal(j, l.a.shape[0]).value, Normal(j, l.b.shape[0]).value);
    }
  }

  /** A slice, or a tensor that lists positions: of the rows of a matrix, or of the matrices of a batch.
      A matrix cannot be indexed by a tensor. */
  function LoraPart(l: Lora, item: Item): Outcome<Lora>
    requires Constructible(l.a, l.b) && !item.Single?
  {
    if |l.a.shape| == 2 then
      if item.Listed? then Err(NotImplemented)
      else match Positions(item, l.b.shape[0])
        case Err(e) => Err(e)
        case Ok(jb) => Make(l.a, Take(l.b, 0, jb))
    else match Positions(item, l.a.shape[0])
      case Err(e) => Err(e)
      case Ok(ja) =>
        match Positions(item, l.b.shape[0])
        case Err(e) => Err(e)
        case Ok(jb) => Make(Take(l.a, 0, ja), Take(l.b, 0, jb))
  }

  function DensePart(t: Tensor, item: Item): Outcome<Tensor>
    requires !item.Single?
  {
    if t.shape == [] then Err(TorchError) else IndexAxis(t, 0, item)
  }

  predicate OnlyEnds(js: seq<int>) {
    forall i {:trigger js[i]} :: 0 <= i < |js| ==> js[i] == 0 || js[i] == -1
  }

  /** A shared A must survive a slice, which is taken on its single entry too. */
  predicate PartKeepsA(l: Lora, item: Item)
    requires Constructible(l.a, l.b) && item.Part? && Positions(item, 0).Ok?
  {
    || |l.a.shape| == 2 || |Positions(item, l.a.shape[0]).value| == 1
    || |Positions(item, l.a.shape[0]).value| == |Positions(item, l.b.shape[0]).value|
  }

  /** A slice is accepted exactly when the tensor accepts it, a list of positions if it is for a batch and,
      when A is shared, has only the first and the last. The factors of the result fit each other, for a
      slice exactly when A survives, and then they are that part of the product. */
  lemma PartCommutes(l: Lora, item: Item)
    requires Meaningful(l) && !item.Single?
    ensures LoraPart(l, item).Ok? <==>
            && DensePart(Product(l), item).Ok?
            && (item.Listed? ==> |l.a.shape| > 2 && (l.a.shape[0] == l.b.shape[0] || OnlyEnds(item.js)))
    ensures LoraPart(l, item).Ok? && item.Part? ==> Positions(item, 0).Ok?
    ensures LoraPart(l, item).Ok? ==>
              var l' := LoraPart(l, item).value;
              && (Meaningful(l') <==> item.Part? ==> PartKeepsA(l, item))
              && (Meaningful(l') ==> Rank(l') == Rank(l) && Same(DensePart(Product(l), item).value, Product(l')))
  {
    hide Sliced, Normals, Product, Same, Take;
    assert Shape(l)[0] == l.b.shape[0];
    OnlyEndsExactly(l, item);
    if LoraPart(l, item).Ok? {
      var l', jb := LoraPart(l, item).value, Positions(item, l.b.shape[0]).value;
      var ja := if |l.a.shape| == 2 then jb else Positions(item, l.a.shape[0]).value;
      PartsAgree(l, item);
      if Meaningful(l') {
        TakeCommutes(l, 0, jb);
        TakenTwice(l, ja, jb, l');
        SameTransitive(Take(Product(l), 0, jb), Product(LoraTake(l, 0, jb)), Product(l'));
      }
    }
  }

  lemma OnlyEndsExactly(l: Lora, item: Item)
    requires Meaningful(l)
    ensures item.Listed? && l.a.shape[0] == 1 ==> (Positions(item, l.a.shape[0]).Ok? <==> OnlyEnds(item.js))
  {
    if item.Listed? && l.a.shape[0] == 1 {
      forall i {:trigger item.js[i]} | 0 <= i < |item.js|
        ensures Normal(item.js[i], 1).Ok? <==> item.js[i] == 0 || item.js[i] == -1
      {
      }
    }
  }

  lemma PartsAgree(l: Lora, item: Item)
    requires Meaningful(l) && !item.Single? && LoraPart(l, item).Ok?
    ensures item.Part? ==> Positions(item, 0).Ok? && (Meaningful(LoraPart(l, item).value) <==> PartKeepsA(l, item))
    ensures item.Listed? ==> Meaningful(LoraPart(l, item).value)
  {
    hide Take, Sliced, Normals;
    if |l.a.shape| > 2 {
      LeadsAgree(l, Positions(item, l.a.shape[0]).value, Positions(item, l.b.shape[0]).value);
    }
  }

  lemma LeadsAgree(l: Lora, ja: seq<nat>, jb: seq<nat>)
    requires Meaningful(l) && |l.a.shape| > 2 && AllBelow(ja, l.a.shape[0]) && AllBelow(jb, l.b.shape[0])
    ensures Meaningful(Lora(Take(l.a, 0, ja), Take(l.b, 0, jb))) <==> |ja| == 1 || |ja| == |jb|
  {
    hide Take;
    var l' := Lora(Take(l.a, 0, ja), Take(l.b, 0, jb));
    assert l'.a.shape[0] == |ja| && l'.b.shape[0] == |jb|;
  }

  /** Some positions of both factors, where those of a shared A are all its only one. */
  lemma TakenTwice(l: Lora, ja: seq<nat>, jb: seq<nat>, l': Lora)
    requires Meaningful(l) && AllBelow(jb, Shape(l)[0]) && Meaningful(l')
    requires l'.b == Take(l.b, 0, jb)
    requires if |l.a.shape| == 2 then l'.a == l.a
             else AllBelow(ja, l.a.shape[0]) && l'.a == Take(l.a, 0, ja) && (l.a.shape[0] == l.b.shape[0] ==> ja == jb)
    ensures Rank(l') == Rank(l) && Same(Product(LoraTake(l, 0, jb)), Product(l'))
  {
    var m := LoraTake(l, 0, jb);
    if m == l' {
      hide Product;
      SameReflexive(Product(m));
    } else {
      assert l.a.shape[0] == 1 && m == Lora(l.a, Take(l.b, 0, jb));
      SharedTwice(l, ja, m, l');
    }
  }

  lemma SharedTwice(l: Lora, ja: seq<nat>, m: Lora, l': Lora)
    requires Constructible(l.a, l.b) && |l.a.shape| > 2 && l.a.shape[0] == 1 && AllBelow(ja, 1)
    requires Meaningful(m) && Meaningful(l') && m.a == l.a && l'.b == m.b && l'.a == Take(l.a, 0, ja)
    ensures Rank(l') == Rank(m) && Same(Product(m), Product(l'))
  {
    hide Sum;
    assert Shape(m) == Shape(l');
    forall idx | Within(Shape(m), idx) ensures Product(m).at(idx) == Product(l').at(idx) {
      assert Shape(m)[0] == m.b.shape[0];
      forall k: nat | k < Rank(m) ensures Term(m, idx)(k) == Term(l', idx)(k) {
        SharedTerm(l, ja, idx, k);
      }
      SumSame(Rank(m), Term(m, idx), Term(l', idx));
    }
  }

  lemma SharedTerm(l: Lora, ja: seq<nat>, idx: seq<nat>, k: nat)
    requires Constructible(l.a, l.b) && |l.a.shape| > 2 && l.a.shape[0] == 1 && AllBelow(ja, 1) && |idx| == |l.a.shape|
    requires |ja| == 1 || idx[0] < |ja|
    ensures var a := Take(l.a, 0, ja); a.at(IndexA(a.shape, idx, k)) == l.a.at(IndexA(l.a.shape, idx, k))
  {
    var a := Take(l.a, 0, ja);
    var i, i' := IndexA(l.a.shape, idx, k), IndexA(a.shape, idx, k);
    assert i'[0] < |ja| && ja[i'[0]] == 0;
    assert i'[0 := 0] == i;
  }
}
