/** Tuples of indices for a factored weight: positions, slices, lists of positions, an ellipsis. The
    class builds one tuple for each factor; together they must mean what the tuple means for the
    product. */
module LoraTuples {
  import opened Wrappers
  import opened Tensor
  import opened Lora
  import opened LoraParts

  const ALL: Item := Part(Range(None, None, None))

  lemma AllPositions(size: nat)
    ensures Positions(ALL, size) == Ok(Interval(0, size))
  {
    SteppedOne(0, size);
  }

  lemma WholeAxis(t: Tensor, d: nat)
    requires d < |t.shape|
    ensures IndexAxis(t, d, ALL).Ok? && Same(t, IndexAxis(t, d, ALL).value)
    ensures IndexAxis(t, d, ALL).value == Take(t, d, Interval(0, t.shape[d]))
  {
    hide Take, Same;
    AllPositions(t.shape[d]);
    TakeWhole(t, d);
  }

  // ----- tuples -----

  datatype Entry = One(item: Item) | Ellipsis

  function Whole(k: nat): (r: seq<Item>)
    ensures |r| == k && forall i :: 0 <= i < k ==> r[i] == ALL
  {
    seq(k, _ => ALL)
  }

  /** Every ellipsis stands for `k` whole axes. */
  function Expand(items: seq<Entry>, k: nat): seq<Item> {
    if items == [] then []
    else (if items[0].One? then [items[0].item] else Whole(k)) + Expand(items[1..], k)
  }

  function Filled(items: seq<Item>, n: nat): (r: seq<Item>)
    requires |items| <= n
    ensures |r| == n
  {
    items + Whole(n - |items|)
  }

  /** One entry for each axis, as the class sees it: an ellipsis at the end is dropped, and any other
      stands for as many axes as the tuple has other entries. */
  function ClassItems(items: seq<Entry>, n: nat): (r: Outcome<seq<Item>>)
    ensures r.Ok? ==> |r.value| == n
    decreases |items|
  {
    if items == [] then Err(AssertionFailed)
    else if items[|items| - 1].Ellipsis? then ClassItems(items[..|items| - 1], n)
    else
      var all := Expand(items, |items| - 1);
      if |all| > n then Err(TorchError) else Ok(Filled(all, n))
  }

  /** The number of entries that are no ellipsis. */
  function Given(items: seq<Entry>): nat {
    if items == [] then 0 else (if items[0].One? then 1 else 0) + Given(items[1..])
  }

  /** As the tensor sees it: an ellipsis stands for the axes that have no entry. */
  function DenseItems(items: seq<Entry>, n: nat): (r: Outcome<seq<Item>>)
    ensures r.Ok? ==> |r.value| == n
  {
    if Given(items) > n then Err(TorchError)
    else
      var all := Expand(items, n - Given(items));
      if |all| > n then Err(TorchError) else Ok(Filled(all, n))
  }

  /** For A a leading position is taken modulo A's own size, and a leading slice is not taken at all. A
      list of positions is refused: as an integer if it is not a single one, and else because only B
      keeps the axis. */
  function LeadItems(shape: seq<nat>, items: seq<Item>): (r: Outcome<seq<Item>>)
    requires |items| <= |shape|
    ensures r.Ok? ==> |r.value| == |items|
  {
    if items == [] then Ok([])
    else
      var d := |items| - 1;
      match LeadItems(shape, items[..d])
      case Err(e) => Err(e)
      case Ok(leads) =>
        match items[d]
        case Part(_) => Ok(leads + [ALL])
        case Single(j) => if shape[d] == 0 then Err(AssertionFailed) else Ok(leads + [Single(j % shape[d])])
        case Listed(_) => Err(AssertionFailed)
  }

  /** Both factors are indexed at once; B has nothing for the last entry and A nothing for the one before. */
  function IndexFactors(l: Lora, leads: seq<Item>, row: Item, col: Item): Outcome<Lora>
    requires Constructible(l.a, l.b) && |leads| == |l.a.shape| - 2
  {
    match LeadItems(l.a.shape, leads)
    case Err(e) => Err(e)
    case Ok(leadsA) =>
      match IndexAxes(l.a, leadsA + [ALL] + [col])
      case Err(e) => Err(e)
      case Ok(a) =>
        match IndexAxes(l.b, leads + [row])
        case Err(e) => Err(e)
        case Ok(b) => if |a.shape| < 2 then Err(TorchError) else Make(a, b)
  }

  function LoraTuple(l: Lora, items: seq<Entry>): Outcome<Lora>
    requires Constructible(l.a, l.b)
  {
    var n := |l.a.shape|;
    match ClassItems(items, n)
    case Err(e) => Err(e)
    case Ok(all) => IndexFactors(l, all[..n - 2], all[n - 2], all[n - 1])
  }

  function PairAt(idx: seq<nat>, r: nat, c: nat): seq<nat>
    requires idx != []
  {
    var i := idx[|idx| - 1];
    idx[..|idx| - 1] + [if r == 1 then 0 else i, if c == 1 then 0 else i]
  }

  /** Two lists of positions are read together, a single one again and again. */
  function Pairwise(t: Tensor): Outcome<Tensor>
    requires |t.shape| >= 2
  {
    var n := |t.shape|;
    var r, c := t.shape[n - 2], t.shape[n - 1];
    if r != c && r != 1 && c != 1 then Err(TorchError)
    else Ok(Tensor(t.shape[..n - 2] + [if r == 1 then c else r],
                   (idx: seq<nat>) => if idx == [] then 0.0 else t.at(PairAt(idx, r, c))))
  }

  /** All axes at once. Lists of positions on leading axes, which the class refuses, are read here only
      if there is one of them and no other. */
  function DenseAxes(t: Tensor, all: seq<Item>): (r: Outcome<Tensor>)
    requires |all| == |t.shape| >= 2
  {
    match IndexAxes(t, all)
    case Err(e) => Err(e)
    case Ok(w) =>
      var n := |all|;
      if all[n - 2].Listed? && all[n - 1].Listed? && |w.shape| >= 2 then Pairwise(w) else Ok(w)
  }

  function DenseTuple(t: Tensor, items: seq<Entry>): Outcome<Tensor>
    requires |t.shape| >= 2
  {
    match DenseItems(items, |t.shape|)
    case Err(e) => Err(e)
    case Ok(all) => DenseAxes(t, all)
  }

  /** A leading slice takes a whole axis, unless A is shared along it. */
  predicate LeadFits(l: Lora, d: nat, item: Item)
    requires Constructible(l.a, l.b) && d < |l.a.shape| - 2
  {
    && !item.Listed?
    && (item.Part? && Positions(item, l.b.shape[d]).Ok? ==>
          l.a.shape[d] == 1 || |Positions(item, l.b.shape[d]).value| == l.b.shape[d])
  }

  predicate LeadsFit(l: Lora, items: seq<Item>)
    requires Constructible(l.a, l.b) && |items| <= |l.a.shape| - 2
  {
    forall i {:trigger items[i]} :: 0 <= i < |items| ==> LeadFits(l, i, items[i])
  }

  /** Rows and columns stay, only one of them is given as a list, and the leading entries fit. */
  predicate AxesFit(l: Lora, all: seq<Item>)
    requires Constructible(l.a, l.b) && |all| == |l.a.shape|
  {
    var n := |all|;
    && !all[n - 2].Single? && !all[n - 1].Single? && !(all[n - 2].Listed? && all[n - 1].Listed?)
    && LeadsFit(l, all[..n - 2])
  }

  // ----- leading entries -----

  lemma {:induction false} SteppedIncreases(lo: nat, hi: nat, step: nat, i: nat)
    requires step > 0 && i < |Stepped(lo, hi, step)|
    ensures lo + i <= Stepped(lo, hi, step)[i] && Stepped(lo, hi, step)[i] + (|Stepped(lo, hi, step)| - i) <= hi
    decreases hi - lo
  {
    var rest := Stepped(lo + step, hi, step);
    if i > 0 {
      SteppedIncreases(lo + step, hi, step, i - 1);
    } else if rest != [] {
      SteppedIncreases(lo + step, hi, step, 0);
    }
  }

  /** A slice as long as the axis is the whole axis. */
  lemma SlicedWhole(r: Range, size: nat)
    requires Sliced(r, size).Ok? && |Sliced(r, size).value| == size
    ensures Sliced(r, size).value == Interval(0, size)
  {
    var js := Sliced(r, size).value;
    var lo := if r.lo.Some? then Clipped(r.lo.value, size) else 0;
    var hi := if r.hi.Some? then Clipped(r.hi.value, size) else size;
    var step := if r.step.None? then 1 else r.step.value;
    hide Stepped;
    forall i | 0 <= i < size ensures js[i] == i {
      SteppedIncreases(lo, hi, step, i);
    }
  }

  /** What one leading entry leaves of the factors. */
  function LeadStep(l: Lora, d: nat, item: Item): Outcome<Lora>
    requires Constructible(l.a, l.b) && d < |l.a.shape| - 2
  {
    var itemA := if !item.Single? then ALL else if l.a.shape[d] == 0 then item else Single(item.j % l.a.shape[d]);
    match IndexAxis(l.a, d, itemA)
    case Err(e) => Err(e)
    case Ok(a) =>
      match IndexAxis(l.b, d, item)
      case Err(e) => Err(e)
      case Ok(b) => Ok(Lora(a, b))
  }

  lemma SingleStepCommutes(l: Lora, d: nat, j: int)
    requires Meaningful(l) && d < |l.a.shape| - 2
    ensures LeadStep(l, d, Single(j)).Ok? <==> IndexAxis(Product(l), d, Single(j)).Ok?
    ensures LeadStep(l, d, Single(j)).Ok? ==>
              var l' := LeadStep(l, d, Single(j)).value;
              && Meaningful(l') && Rank(l') == Rank(l) && d <= |l'.a.shape| - 2
              && l'.a.shape[..d] == l.a.shape[..d] && l'.b.shape[..d] == l.b.shape[..d]
              && Same(IndexAxis(Product(l), d, Single(j)).value, Product(l'))
  {
    hide Same, Product, Select;
    assert Shape(l)[d] == l.b.shape[d];
    if l.a.shape[d] > 0 && Normal(j, l.b.shape[d]).Ok? {
      var jb := Normal(j, l.b.shape[d]).value;
      if l.a.shape[d] == l.b.shape[d] {
        ModNormal(j, l.a.shape[d], jb);
      }
      SelectCommutes(l, d, j % l.a.shape[d], jb);
    }
  }

  lemma PartStepCommutes(l: Lora, d: nat, item: Item)
    requires Meaningful(l) && d < |l.a.shape| - 2 && item.Part? && LeadFits(l, d, item)
    ensures LeadStep(l, d, item).Ok? <==> IndexAxis(Product(l), d, item).Ok?
    ensures LeadStep(l, d, item).Ok? ==>
              var l' := LeadStep(l, d, item).value;
              && Meaningful(l') && Rank(l') == Rank(l) && d <= |l'.a.shape| - 2
              && l'.a.shape[..d] == l.a.shape[..d] && l'.b.shape[..d] == l.b.shape[..d]
              && Same(IndexAxis(Product(l), d, item).value, Product(l'))
  {
    hide Same, Product, Sliced, Take, Stepped;
    assert Shape(l)[d] == l.b.shape[d];
    WholeAxis(l.a, d);
    if Positions(item, l.b.shape[d]).Ok? {
      var js := Positions(item, l.b.shape[d]).value;
      var l', m := LeadStep(l, d, item).value, LoraTake(l, d, js);
      TakeCommutes(l, d, js);
      if l.a.shape[d] == 1 {
        SameReflexive(m.b);
        ProductSame(m, l');
        SameTransitive(Take(Product(l), d, js), Product(m), Product(l'));
      } else {
        SlicedWhole(item.range, l.a.shape[d]);
        assert m == l';
      }
    }
  }

  lemma LeadStepCommutes(l: Lora, d: nat, item: Item)
    requires Meaningful(l) && d < |l.a.shape| - 2 && LeadFits(l, d, item)
    ensures LeadStep(l, d, item).Ok? <==> IndexAxis(Product(l), d, item).Ok?
    ensures LeadStep(l, d, item).Ok? ==>
              var l' := LeadStep(l, d, item).value;
              && Meaningful(l') && Rank(l') == Rank(l) && d <= |l'.a.shape| - 2
              && l'.a.shape[..d] == l.a.shape[..d] && l'.b.shape[..d] == l.b.shape[..d]
              && Same(IndexAxis(Product(l), d, item).value, Product(l'))
  {
    if item.Single? {
      SingleStepCommutes(l, d, item.j);
    } else {
      PartStepCommutes(l, d, item);
    }
  }

  /** The factors after the leading entries. */
  function LeadSteps(l: Lora, items: seq<Item>): Outcome<Lora>
    requires Meaningful(l) && |items| <= |l.a.shape| - 2 && LeadsFit(l, items)
    decreases |items|
  {
    if items == [] then Ok(l)
    else
      var d := |items| - 1;
      LeadFitsAt(l, items, d);
      LeadStepCommutes(l, d, items[d]);
      match LeadStep(l, d, items[d])
      case Err(e) => Err(e)
      case Ok(m) => LeadsStillFit(l, m, items); LeadSteps(m, items[..d])
  }

  lemma LeadsStillFit(l: Lora, m: Lora, items: seq<Item>)
    requires Constructible(l.a, l.b) && Constructible(m.a, m.b) && items != [] && |items| <= |l.a.shape| - 2
    requires LeadsFit(l, items) && |items| - 1 <= |m.a.shape| - 2
    requires m.a.shape[..|items| - 1] == l.a.shape[..|items| - 1]
    requires m.b.shape[..|items| - 1] == l.b.shape[..|items| - 1]
    ensures LeadsFit(m, items[..|items| - 1])
  {
    var d := |items| - 1;
    forall i | 0 <= i < d ensures m.a.shape[i] == l.a.shape[i] && m.b.shape[i] == l.b.shape[i] {
      assert m.a.shape[..d][i] == l.a.shape[..d][i] && m.b.shape[..d][i] == l.b.shape[..d][i];
    }
  }

  lemma {:induction false} LeadStepsCommute(l: Lora, items: seq<Item>)
    requires Meaningful(l) && |items| <= |l.a.shape| - 2 && LeadsFit(l, items)
    ensures LeadSteps(l, items).Ok? <==> IndexAxes(Product(l), items).Ok?
    ensures LeadSteps(l, items).Ok? ==>
              var l' := LeadSteps(l, items).value;
              Meaningful(l') && Rank(l') == Rank(l) && Same(IndexAxes(Product(l), items).value, Product(l'))
    decreases |items|
  {
    hide Same, Product, LeadStep, LeadFits, IndexAxis;
    if items == [] {
      SameReflexive(Product(l));
    } else {
      var d := |items| - 1;
      LeadFitsAt(l, items, d);
      LeadStepCommutes(l, d, items[d]);
      if LeadStep(l, d, items[d]).Ok? {
        var m := LeadStep(l, d, items[d]).value;
        var w := IndexAxis(Product(l), d, items[d]).value;
        LeadsStillFit(l, m, items);
        LeadStepsCommute(m, items[..d]);
        SameSymmetric(w, Product(m));
        SameShape(w, Product(m));
        if IndexAxes(w, items[..d]).Ok? {
          IndexAxesSame(w, Product(m), items[..d]);
          SameTransitive(IndexAxes(w, items[..d]).value, IndexAxes(Product(m), items[..d]).value,
                         Product(LeadSteps(m, items[..d]).value));
        }
        if IndexAxes(Product(m), items[..d]).Ok? {
          IndexAxesSame(Product(m), w, items[..d]);
        }
      }
    }
  }

  lemma LeadFitsAt(l: Lora, items: seq<Item>, d: nat)
    requires Constructible(l.a, l.b) && d < |items| <= |l.a.shape| - 2 && LeadsFit(l, items)
    ensures LeadFits(l, d, items[d]) && !items[d].Listed?
  {
  }

  lemma {:induction false} LeadItemsSame(s: seq<nat>, t: seq<nat>, items: seq<Item>)
    requires |items| <= |s| && |items| <= |t| && s[..|items|] == t[..|items|]
    ensures LeadItems(s, items) == LeadItems(t, items)
  {
    if items != [] {
      var d := |items| - 1;
      assert s[d] == s[..|items|][d] && t[d] == t[..|items|][d];
      assert s[..d] == s[..|items|][..d] && t[..d] == t[..|items|][..d];
      LeadItemsSame(s, t, items[..d]);
    }
  }

  /** Step by step or each factor at once. */
  lemma {:induction false} LeadStepsFactors(l: Lora, items: seq<Item>)
    requires Meaningful(l) && |items| <= |l.a.shape| - 2 && LeadsFit(l, items)
    ensures var leads := LeadItems(l.a.shape, items);
            && (LeadSteps(l, items).Ok? <==>
                leads.Ok? && IndexAxes(l.a, leads.value).Ok? && IndexAxes(l.b, items).Ok?)
            && (LeadSteps(l, items).Ok? ==>
                  LeadSteps(l, items).value == Lora(IndexAxes(l.a, leads.value).value, IndexAxes(l.b, items).value))
    decreases |items|
  {
    hide Same, Product, LeadFits, IndexAxis;
    if items != [] {
      var d := |items| - 1;
      var leads := LeadItems(l.a.shape, items);
      LeadFitsAt(l, items, d);
      LeadStepCommutes(l, d, items[d]);
      PositionNeedsRoom(l, d, items[d]);
      if leads.Ok? {
        assert leads.value[..d] == LeadItems(l.a.shape, items[..d]).value;
      }
      if LeadStep(l, d, items[d]).Ok? {
        var m := LeadStep(l, d, items[d]).value;
        LeadsStillFit(l, m, items);
        LeadItemsSame(l.a.shape, m.a.shape, items[..d]);
        LeadStepsFactors(m, items[..d]);
      }
    }
  }

  lemma PositionNeedsRoom(l: Lora, d: nat, item: Item)
    requires Constructible(l.a, l.b) && d < |l.a.shape| - 2
    ensures item.Single? && l.a.shape[d] == 0 ==> LeadStep(l, d, item).Err?
  {
  }

  // ----- rows and columns -----

  /** The factors after rows and columns. */
  function MatrixPart(l: Lora, jr: seq<nat>, jc: seq<nat>): (m: Lora)
    requires Constructible(l.a, l.b)
    requires AllBelow(jr, l.b.shape[|l.a.shape| - 2]) && AllBelow(jc, l.a.shape[|l.a.shape| - 1])
    ensures Constructible(m.a, m.b) && |m.a.shape| == |l.a.shape|
  {
    var n := |l.a.shape|;
    var a := Take(l.a, n - 1, jc);
    Lora(Take(a, n - 2, Interval(0, a.shape[n - 2])), Take(l.b, n - 2, jr))
  }

  /** Rows and columns first. */
  lemma MatrixStep(l: Lora, jr: seq<nat>, jc: seq<nat>)
    requires Meaningful(l) && AllBelow(jr, l.b.shape[|l.a.shape| - 2]) && AllBelow(jc, l.a.shape[|l.a.shape| - 1])
    ensures var n, m := |l.a.shape|, MatrixPart(l, jr, jc);
            && Meaningful(m) && Rank(m) == Rank(l)
            && m.a.shape[..n - 2] == l.a.shape[..n - 2] && m.b.shape[..n - 2] == l.b.shape[..n - 2]
            && Shape(l)[n - 1] == l.a.shape[n - 1] && Shape(l)[n - 2] == l.b.shape[n - 2]
            && Same(Take(Take(Product(l), n - 1, jc), n - 2, jr), Product(m))
  {
    var n, m := |l.a.shape|, MatrixPart(l, jr, jc);
    var l1 := LoraTake(l, n - 1, jc);
    var l2 := LoraTake(l1, n - 2, jr);
    assert Shape(l)[n - 1] == l.a.shape[n - 1] && Shape(l1)[n - 2] == l.b.shape[n - 2] == Shape(l)[n - 2];
    hide Same, Product, Take;
    TakeCommutes(l, n - 1, jc);
    TakeCommutes(l1, n - 2, jr);
    TakeWhole(l1.a, n - 2);
    SameShape(l1.a, m.a);
    SameReflexive(l2.b);
    ProductSame(l2, m);
    var w := Take(Product(l), n - 1, jc);
    SameShape(w, Product(l1));
    TakeSame(w, Product(l1), n - 2, jr);
    SameTransitive(Take(w, n - 2, jr), Take(Product(l1), n - 2, jr), Product(l2));
    SameTransitive(Take(w, n - 2, jr), Product(l2), Product(m));
  }

  lemma AxesUnfold(t: Tensor, leads: seq<Item>, last: Item)
    requires |leads| < |t.shape|
    ensures var u := IndexAxis(t, |leads|, last);
            IndexAxes(t, leads + [last]) == if u.Err? then Err(u.error) else IndexAxes(u.value, leads)
  {
    hide IndexAxis;
    assert (leads + [last])[..|leads|] == leads;
  }

  lemma AxisIs(t: Tensor, d: nat, item: Item)
    requires d < |t.shape| && !item.Single?
    ensures var js := Positions(item, t.shape[d]);
            IndexAxis(t, d, item) == if js.Err? then Err(js.error) else Ok(Take(t, d, js.value))
  {
  }

  /** Two last entries, of axes that stay. */
  lemma LastTwo(t: Tensor, leads: seq<Item>, row: Item, col: Item)
    requires |leads| + 2 == |t.shape| && !row.Single? && !col.Single?
    ensures var n := |t.shape|;
            var jr, jc := Positions(row, t.shape[n - 2]), Positions(col, t.shape[n - 1]);
            && (jr.Err? || jc.Err? ==> IndexAxes(t, leads + [row] + [col]).Err?)
            && (jr.Ok? && jc.Ok? ==>
                  IndexAxes(t, leads + [row] + [col]) ==
                  IndexAxes(Take(Take(t, n - 1, jc.value), n - 2, jr.value), leads))
  {
    var n := |t.shape|;
    var jc := Positions(col, t.shape[n - 1]);
    hide IndexAxes, IndexAxis, Positions, Take;
    AxesUnfold(t, leads + [row], col);
    AxisIs(t, n - 1, col);
    if jc.Ok? {
      var w := Take(t, n - 1, jc.value);
      AxesUnfold(w, leads, row);
      AxisIs(w, n - 2, row);
    }
  }

  lemma LastOne(t: Tensor, leads: seq<Item>, row: Item)
    requires |leads| + 2 == |t.shape| && !row.Single?
    ensures var jr := Positions(row, t.shape[|leads|]);
            IndexAxes(t, leads + [row]) ==
            if jr.Err? then Err(jr.error) else IndexAxes(Take(t, |leads|, jr.value), leads)
  {
    hide IndexAxes, IndexAxis, Positions, Take;
    AxesUnfold(t, leads, row);
    AxisIs(t, |leads|, row);
  }

  /** Both factors and the product, after rows and columns. */
  lemma MatrixFirst(l: Lora, leads: seq<Item>, leadsA: seq<Item>, row: Item, col: Item)
    requires Meaningful(l) && |leads| == |leadsA| == |l.a.shape| - 2 && !row.Single? && !col.Single?
    ensures var n := |l.a.shape|;
            var jr, jc := Positions(row, l.b.shape[n - 2]), Positions(col, l.a.shape[n - 1]);
            && (jc.Err? ==> IndexAxes(l.a, leadsA + [ALL] + [col]).Err?)
            && (jr.Err? ==> IndexAxes(l.b, leads + [row]).Err?)
            && (jr.Err? || jc.Err? ==> IndexAxes(Product(l), leads + [row] + [col]).Err?)
            && (jr.Ok? && jc.Ok? ==>
                  var m := MatrixPart(l, jr.value, jc.value);
                  && Shape(l)[n - 1] == l.a.shape[n - 1] && Shape(l)[n - 2] == l.b.shape[n - 2]
                  && IndexAxes(l.a, leadsA + [ALL] + [col]) == IndexAxes(m.a, leadsA)
                  && IndexAxes(l.b, leads + [row]) == IndexAxes(m.b, leads)
                  && IndexAxes(Product(l), leads + [row] + [col]) ==
                     IndexAxes(Take(Take(Product(l), n - 1, jc.value), n - 2, jr.value), leads))
  {
    var n := |l.a.shape|;
    assert Shape(l)[n - 1] == l.a.shape[n - 1] && Shape(l)[n - 2] == l.b.shape[n - 2];
    AllPositions(l.a.shape[n - 2]);
    hide IndexAxes, IndexAxis, Positions, Take, Product;
    LastTwo(l.a, leadsA, ALL, col);
    LastOne(l.b, leads, row);
    LastTwo(Product(l), leads, row, col);
  }

  lemma FactorsIndexed(l: Lora, leads: seq<Item>, row: Item, col: Item, m: Lora)
    requires Meaningful(l) && |leads| == |l.a.shape| - 2 && !row.Single? && !col.Single?
    requires var n := |l.a.shape|;
             var jr, jc := Positions(row, l.b.shape[n - 2]), Positions(col, l.a.shape[n - 1]);
             jr.Ok? && jc.Ok? && m == MatrixPart(l, jr.value, jc.value)
    requires Meaningful(m) && m.a.shape[..|leads|] == l.a.shape[..|leads|] && LeadsFit(m, leads)
    requires LeadSteps(m, leads).Ok? ==> Meaningful(LeadSteps(m, leads).value)
    ensures var r := LeadSteps(m, leads);
            && (IndexFactors(l, leads, row, col).Ok? <==> r.Ok?)
            && (r.Ok? ==> IndexFactors(l, leads, row, col) == r)
  {
    var leadsA := LeadItems(l.a.shape, leads);
    hide LeadsFit, IndexAxis, LeadItems, LeadSteps, IndexAxes, MatrixPart, Positions, Product, Take;
    LeadStepsFactors(m, leads);
    LeadItemsSame(l.a.shape, m.a.shape, leads);
    if leadsA.Ok? {
      MatrixFirst(l, leads, leadsA.value, row, col);
    }
  }

  /** The leading entries, for a tensor that is the product up to its entries outside. */
  lemma LeadsOn(w: Tensor, m: Lora, leads: seq<Item>)
    requires Meaningful(m) && |leads| == |m.a.shape| - 2 && LeadsFit(m, leads) && Same(w, Product(m))
    ensures |w.shape| == |m.a.shape|
    ensures LeadSteps(m, leads).Ok? <==> IndexAxes(w, leads).Ok?
    ensures LeadSteps(m, leads).Ok? ==>
              var r := LeadSteps(m, leads).value;
              Meaningful(r) && Rank(r) == Rank(m) && Same(IndexAxes(w, leads).value, Product(r))
  {
    hide Same, Product, LeadsFit, LeadSteps, IndexAxes;
    LeadStepsCommute(m, leads);
    SameShape(w, Product(m));
    SameAxes(w, Product(m), leads);
    if IndexAxes(w, leads).Ok? {
      SameTransitive(IndexAxes(w, leads).value, IndexAxes(Product(m), leads).value,
                     Product(LeadSteps(m, leads).value));
    }
  }

  lemma NoPositions(l: Lora, leads: seq<Item>, row: Item, col: Item)
    requires Meaningful(l) && |leads| == |l.a.shape| - 2 && !row.Single? && !col.Single?
    requires Positions(row, l.b.shape[|leads|]).Err? || Positions(col, l.a.shape[|leads| + 1]).Err?
    ensures IndexFactors(l, leads, row, col).Err? && IndexAxes(Product(l), leads + [row] + [col]).Err?
  {
    hide Product, IndexAxis, IndexAxes, Positions, LeadItems;
    var leadsA := LeadItems(l.a.shape, leads);
    MatrixFirst(l, leads, if leadsA.Ok? then leadsA.value else leads, row, col);
  }

  lemma IndexFactorsCommutes(l: Lora, leads: seq<Item>, row: Item, col: Item)
    requires Meaningful(l) && |leads| == |l.a.shape| - 2 && !row.Single? && !col.Single? && LeadsFit(l, leads)
    ensures var r, w := IndexFactors(l, leads, row, col), IndexAxes(Product(l), leads + [row] + [col]);
            && (r.Ok? <==> w.Ok?)
            && (r.Ok? ==> Meaningful(r.value) && Rank(r.value) == Rank(l) && Same(w.value, Product(r.value)))
  {
    var n := |l.a.shape|;
    var jr, jc := Positions(row, l.b.shape[n - 2]), Positions(col, l.a.shape[n - 1]);
    hide Same, Product, LeadsFit, IndexAxis, LeadSteps, IndexAxes, IndexFactors, MatrixPart, Positions, Take;
    if jr.Ok? && jc.Ok? {
      var m := MatrixPart(l, jr.value, jc.value);
      MatrixStep(l, jr.value, jc.value);
      LeadsFitToo(l, m, leads);
      LeadsOn(Take(Take(Product(l), n - 1, jc.value), n - 2, jr.value), m, leads);
      FactorsIndexed(l, leads, row, col, m);
      MatrixFirst(l, leads, leads, row, col);
    } else {
      NoPositions(l, leads, row, col);
    }
  }

  lemma TupleIs(l: Lora, items: seq<Entry>)
    requires Meaningful(l) && DenseItems(items, |l.a.shape|) == ClassItems(items, |l.a.shape|)
    ensures LoraTuple(l, items).Ok? ==> ClassItems(items, |l.a.shape|).Ok?
    ensures ClassItems(items, |l.a.shape|).Ok? ==>
            var all, n := ClassItems(items, |l.a.shape|).value, |l.a.shape|;
            && n >= 2 && LoraTuple(l, items) == IndexFactors(l, all[..n - 2], all[n - 2], all[n - 1])
            && DenseTuple(Product(l), items) == DenseAxes(Product(l), all)
  {
    hide ClassItems, DenseItems, IndexFactors, DenseAxes, Product;
  }

  lemma LastTwoOf(all: seq<Item>)
    requires |all| >= 2
    ensures var k := |all| - 2; all[..k] + [all[k]] + [all[k + 1]] == all
  {
  }

  /** A tuple whose entries fit is accepted exactly when the tensor accepts it, and means the same. */
  lemma TupleCommutes(l: Lora, items: seq<Entry>)
    requires Meaningful(l) && ClassItems(items, |l.a.shape|).Ok?
    requires DenseItems(items, |l.a.shape|) == ClassItems(items, |l.a.shape|)
    requires AxesFit(l, ClassItems(items, |l.a.shape|).value)
    ensures LoraTuple(l, items).Ok? <==> DenseTuple(Product(l), items).Ok?
    ensures LoraTuple(l, items).Ok? ==>
              var l' := LoraTuple(l, items).value;
              Meaningful(l') && Rank(l') == Rank(l) && Same(DenseTuple(Product(l), items).value, Product(l'))
  {
    TupleIs(l, items);
    hide *;
    AllCommutes(l, ClassItems(items, |l.a.shape|).value);
  }

  lemma AllCommutes(l: Lora, all: seq<Item>)
    requires Meaningful(l) && |all| == |l.a.shape| && AxesFit(l, all)
    ensures var r := IndexFactors(l, all[..|all| - 2], all[|all| - 2], all[|all| - 1]);
            var w := DenseAxes(Product(l), all);
            && (r.Ok? <==> w.Ok?)
            && (r.Ok? ==> Meaningful(r.value) && Rank(r.value) == Rank(l) && Same(w.value, Product(r.value)))
  {
    var k: nat := |all| - 2;
    hide Same, Product, LeadsFit, IndexAxes, IndexFactors, Meaningful, Rank, Pairwise;
    LastTwoOf(all);
    IndexFactorsCommutes(l, all[..k], all[k], all[k + 1]);
  }

  // ----- tuples that do not fit -----

  function CountParts(items: seq<Item>): (n: nat)
    ensures n <= |items|
  {
    if items == [] then 0
    else CountParts(items[..|items| - 1]) + if items[|items| - 1].Single? then 0 else 1
  }

  lemma DropOneMore<T>(s: seq<T>, k: nat)
    requires k < |s|
    ensures s[k..][1..] == s[k + 1..]
  {
  }

  lemma CountStep(items: seq<Item>)
    requires items != []
    ensures CountParts(items) == CountParts(items[..|items| - 1]) + if items[|items| - 1].Single? then 0 else 1
  {
  }

  /** Behind the axes that are left of the indexed ones stand the others. */
  lemma {:induction false} AxesBehind(t: Tensor, items: seq<Item>)
    requires |items| <= |t.shape| && IndexAxes(t, items).Ok?
    ensures var s := IndexAxes(t, items).value.shape;
            |s| == CountParts(items) + (|t.shape| - |items|) && s[CountParts(items)..] == t.shape[|items|..]
    decreases |items|
  {
    if items == [] {
    } else {
      var d := |items| - 1;
      hide IndexAxes, IndexAxis, CountParts;
      AxesUnfoldLast(t, items);
      CountStep(items);
      AxisBehind(t, d, items[d]);
      var u := IndexAxis(t, d, items[d]).value;
      AxesBehind(u, items[..d]);
      if !items[d].Single? {
        DropOneMore(IndexAxes(u, items[..d]).value.shape, CountParts(items[..d]));
      }
    }
  }

  lemma AxisBehind(t: Tensor, d: nat, item: Item)
    requires d < |t.shape| && IndexAxis(t, d, item).Ok?
    ensures var u := IndexAxis(t, d, item).value.shape;
            if item.Single? then |u| == |t.shape| - 1 && u[d..] == t.shape[d + 1..]
            else |u| == |t.shape| && u[d..][1..] == t.shape[d + 1..]
  {
    hide Positions;
  }

  lemma AxesUnfoldLast(t: Tensor, items: seq<Item>)
    requires items != [] && |items| <= |t.shape|
    ensures var u := IndexAxis(t, |items| - 1, items[|items| - 1]);
            IndexAxes(t, items) == if u.Err? then Err(u.error) else IndexAxes(u.value, items[..|items| - 1])
  {
    hide IndexAxis;
  }

  /** Where an axis that stays ends up. */
  lemma {:induction false} PartSize(t: Tensor, items: seq<Item>, i: nat)
    requires |items| <= |t.shape| && IndexAxes(t, items).Ok? && i < |items| && !items[i].Single?
    ensures CountParts(items[..i]) < |IndexAxes(t, items).value.shape|
    ensures Positions(items[i], t.shape[i]).Ok?
    ensures IndexAxes(t, items).value.shape[CountParts(items[..i])] == |Positions(items[i], t.shape[i]).value|
    decreases |items|
  {
    var d := |items| - 1;
    var u := IndexAxis(t, d, items[d]).value;
    hide IndexAxes, Positions;
    AxesUnfoldLast(t, items);
    if i == d {
      AxesBehind(u, items[..d]);
      var s := IndexAxes(u, items[..d]).value.shape;
      assert s[CountParts(items[..d])..][0] == u.shape[d..][0];
    } else {
      PartSize(u, items[..d], i);
      assert items[..d][..i] == items[..i];
      assert u.shape[i] == u.shape[..d][i] == t.shape[..d][i] == t.shape[i];
    }
  }

  lemma {:induction false} LeadItemsAre(shape: seq<nat>, items: seq<Item>, i: nat)
    requires |items| <= |shape| && LeadItems(shape, items).Ok? && i < |items|
    ensures var r := LeadItems(shape, items).value;
            && !items[i].Listed? && r[i].Single? == items[i].Single? && (!r[i].Single? ==> r[i] == ALL)
            && LeadItems(shape, items[..i]) == Ok(r[..i]) && CountParts(r[..i]) == CountParts(items[..i])
    decreases |items|
  {
    var d, r := |items| - 1, LeadItems(shape, items).value;
    assert LeadItems(shape, items[..d]) == Ok(r[..d]);
    if i < d {
      LeadItemsAre(shape, items[..d], i);
      assert items[..d][..i] == items[..i] && r[..d][..i] == r[..i];
    } else if d > 0 {
      LeadItemsAre(shape, items[..d], d - 1);
      assert items[..d][..d - 1] == items[..d - 1] && r[..d][..d - 1] == r[..d - 1];
    }
  }

  lemma AxesMisfit(l: Lora, leads: seq<Item>, row: Item, col: Item)
    requires Meaningful(l) && |leads| == |l.a.shape| - 2 && IndexFactors(l, leads, row, col).Ok?
    requires row.Single? || col.Single? || (row.Listed? && col.Listed?) || !LeadsFit(l, leads)
    ensures var l', w := IndexFactors(l, leads, row, col).value, DenseAxes(Product(l), leads + [row] + [col]);
            !(Meaningful(l') && w.Ok? && Same(w.value, Product(l')))
  {
    hide IndexFactors, IndexAxes, DenseAxes, Same, Meaningful, LeadsFit;
    if row.Single? || col.Single? || (row.Listed? && col.Listed?) {
      AxisTooMany(l, leads, row, col);
    } else {
      IndexMisfits(l, leads, row, col);
    }
  }

  /** An accepted tuple means the same on the factors exactly when its entries fit. If a leading slice does
      not, the factors no longer fit each other. If rows and columns are both given as positions, or both
      as lists, the result has an axis too many. */
  lemma TupleExactly(l: Lora, items: seq<Entry>)
    requires Meaningful(l) && LoraTuple(l, items).Ok?
    requires DenseItems(items, |l.a.shape|) == ClassItems(items, |l.a.shape|)
    ensures ClassItems(items, |l.a.shape|).Ok?
    ensures AxesFit(l, ClassItems(items, |l.a.shape|).value) <==>
            var l', w := LoraTuple(l, items).value, DenseTuple(Product(l), items);
            Meaningful(l') && w.Ok? && Same(w.value, Product(l'))
  {
    TupleIs(l, items);
    hide *;
    var all := ClassItems(items, |l.a.shape|).value;
    if AxesFit(l, all) {
      TupleCommutes(l, items);
    } else {
      AllMisfit(l, all);
    }
  }

  lemma AllMisfit(l: Lora, all: seq<Item>)
    requires Meaningful(l) && |all| == |l.a.shape| && !AxesFit(l, all)
    requires IndexFactors(l, all[..|all| - 2], all[|all| - 2], all[|all| - 1]).Ok?
    ensures var l' := IndexFactors(l, all[..|all| - 2], all[|all| - 2], all[|all| - 1]).value;
            var w := DenseAxes(Product(l), all);
            !(Meaningful(l') && w.Ok? && Same(w.value, Product(l')))
  {
    var k: nat := |all| - 2;
    hide *;
    LastTwoOf(all);
    Misfit(l, all);
    AxesMisfit(l, all[..k], all[k], all[k + 1]);
  }

  lemma Misfit(l: Lora, all: seq<Item>)
    requires Constructible(l.a, l.b) && |all| == |l.a.shape| && !AxesFit(l, all)
    ensures var n := |all|;
            || all[n - 2].Single? || all[n - 1].Single? || (all[n - 2].Listed? && all[n - 1].Listed?)
            || !LeadsFit(l, all[..n - 2])
  {
    hide LeadsFit;
  }

  lemma {:induction false} LeadItemsCount(shape: seq<nat>, items: seq<Item>)
    requires |items| <= |shape| && LeadItems(shape, items).Ok?
    ensures CountParts(LeadItems(shape, items).value) == CountParts(items)
    decreases |items|
  {
    if items != [] {
      var d, r := |items| - 1, LeadItems(shape, items).value;
      assert LeadItems(shape, items[..d]) == Ok(r[..d]);
      LeadItemsCount(shape, items[..d]);
    }
  }

  lemma AxesLeft(t: Tensor, items: seq<Item>)
    requires |items| <= |t.shape| && IndexAxes(t, items).Ok?
    ensures |IndexAxes(t, items).value.shape| == CountParts(items) + (|t.shape| - |items|)
  {
    hide IndexAxes, CountParts;
    AxesBehind(t, items);
  }

  lemma AxesOfFactors(l: Lora, leads: seq<Item>, row: Item, col: Item)
    requires Constructible(l.a, l.b) && |leads| == |l.a.shape| - 2 && IndexFactors(l, leads, row, col).Ok?
    ensures var l' := IndexFactors(l, leads, row, col).value;
            && |l'.a.shape| == CountParts(leads) + 1 + (if col.Single? then 0 else 1)
            && |l'.b.shape| == CountParts(leads) + (if row.Single? then 0 else 1) + 1 && |l'.a.shape| == |l'.b.shape|
  {
    var leadsA := LeadItems(l.a.shape, leads).value;
    hide IndexAxes, LeadItems, CountParts;
    LeadItemsCount(l.a.shape, leads);
    AxesLeft(l.a, leadsA + [ALL] + [col]);
    AxesLeft(l.b, leads + [row]);
    PartsAdd(leadsA, ALL);
    PartsAdd(leadsA + [ALL], col);
    PartsAdd(leads, row);
  }

  lemma PairwiseAxes(t: Tensor)
    requires |t.shape| >= 2 && Pairwise(t).Ok?
    ensures |Pairwise(t).value.shape| == |t.shape| - 1
  {
  }

  lemma AxisTooMany(l: Lora, leads: seq<Item>, row: Item, col: Item)
    requires Meaningful(l) && |leads| == |l.a.shape| - 2 && (row.Single? || col.Single? || (row.Listed? && col.Listed?))
    requires IndexFactors(l, leads, row, col).Ok?
    ensures var l', w := IndexFactors(l, leads, row, col).value, DenseAxes(Product(l), leads + [row] + [col]);
            Meaningful(l') && w.Ok? ==> !Same(w.value, Product(l'))
  {
    hide IndexAxes, IndexFactors, LeadItems, CountParts, Same, Pairwise;
    AxesOfFactors(l, leads, row, col);
    var l', w := IndexFactors(l, leads, row, col).value, DenseAxes(Product(l), leads + [row] + [col]);
    if w.Ok? && Meaningful(l') && Same(w.value, Product(l')) {
      SameShape(w.value, Product(l'));
      PartsAdd(leads, row);
      PartsAdd(leads + [row], col);
      AxesLeft(Product(l), leads + [row] + [col]);
      var outer := IndexAxes(Product(l), leads + [row] + [col]).value;
      if row.Listed? && col.Listed? {
        PairwiseAxes(outer);
      }
    }
  }

  lemma IndexMisfits(l: Lora, leads: seq<Item>, row: Item, col: Item)
    requires Meaningful(l) && |leads| == |l.a.shape| - 2 && !col.Single? && IndexFactors(l, leads, row, col).Ok?
    requires !LeadsFit(l, leads)
    ensures !Meaningful(IndexFactors(l, leads, row, col).value)
  {
    var i :| 0 <= i < |leads| && !LeadFits(l, i, leads[i]);
    hide IndexAxes, Positions, LeadItems, LeadsFit, Meaningful;
    LeadItemsAre(l.a.shape, leads, i);
    AxisMisfit(l, leads, LeadItems(l.a.shape, leads).value, row, col, i);
  }

  lemma AxisMisfit(l: Lora, leads: seq<Item>, leadsA: seq<Item>, row: Item, col: Item, i: nat)
    requires Meaningful(l) && i < |leads| == |leadsA| == |l.a.shape| - 2 && !col.Single?
    requires leads[i].Part? && leadsA[i] == ALL && CountParts(leadsA[..i]) == CountParts(leads[..i])
    requires !LeadFits(l, i, leads[i])
    requires IndexAxes(l.a, leadsA + [ALL] + [col]).Ok? && IndexAxes(l.b, leads + [row]).Ok?
    ensures !Meaningful(Lora(IndexAxes(l.a, leadsA + [ALL] + [col]).value, IndexAxes(l.b, leads + [row]).value))
  {
    var ia, ib := leadsA + [ALL] + [col], leads + [row];
    var l' := Lora(IndexAxes(l.a, ia).value, IndexAxes(l.b, ib).value);
    var p := CountParts(leads[..i]);
    assert ia[..i] == leadsA[..i] && ib[..i] == leads[..i];
    assert ia[i] == ALL && ib[i] == leads[i];
    AllPositions(l.a.shape[i]);
    hide IndexAxes, Positions;
    PartSize(l.a, ia, i);
    PartSize(l.b, ib, i);
    AxesBehind(l.a, ia);
    PartsGrow(leadsA, i);
    PartsAdd(leadsA, ALL);
    PartsAdd(leadsA + [ALL], col);
    hide CountParts;
    assert l'.a.shape[p] == l.a.shape[i] && l'.b.shape[p] != l.a.shape[i];
    assert p < |l'.a.shape| - 2;
  }

  lemma PartsAdd(items: seq<Item>, item: Item)
    ensures CountParts(items + [item]) == CountParts(items) + if item.Single? then 0 else 1
  {
    assert (items + [item])[..|items|] == items;
  }

  lemma {:induction false} PartsGrow(items: seq<Item>, i: nat)
    requires i < |items| && !items[i].Single?
    ensures CountParts(items[..i]) + 1 <= CountParts(items)
  {
    var d := |items| - 1;
    if i < d {
      PartsGrow(items[..d], i);
      assert items[..d][..i] == items[..i];
    }
  }

  lemma SameAxes(t: Tensor, u: Tensor, items: seq<Item>)
    requires Same(t, u) && |items| <= |t.shape|
    ensures |u.shape| == |t.shape| && (IndexAxes(t, items).Ok? <==> IndexAxes(u, items).Ok?)
    ensures IndexAxes(t, items).Ok? ==> Same(IndexAxes(t, items).value, IndexAxes(u, items).value)
  {
    hide IndexAxes;
    SameSymmetric(t, u);
    if IndexAxes(t, items).Ok? {
      IndexAxesSame(t, u, items);
    }
    if IndexAxes(u, items).Ok? {
      IndexAxesSame(u, t, items);
    }
  }

  lemma LeadsFitToo(l: Lora, m: Lora, items: seq<Item>)
    requires Constructible(l.a, l.b) && Constructible(m.a, m.b)
    requires |l.a.shape| == |m.a.shape| && |items| == |l.a.shape| - 2
    requires LeadsFit(l, items)
    requires m.a.shape[..|items|] == l.a.shape[..|items|] && m.b.shape[..|items|] == l.b.shape[..|items|]
    ensures LeadsFit(m, items)
  {
    forall i | 0 <= i < |items| ensures m.a.shape[i] == l.a.shape[i] && m.b.shape[i] == l.b.shape[i] {
      assert m.a.shape[..|items|][i] == l.a.shape[..|items|][i] && m.b.shape[..|items|][i] == l.b.shape[..|items|][i];
    }
  }

  lemma ModNormal(j: int, size: nat, i: nat)
    requires size > 0 && Normal(j, size) == Ok(i)
    ensures j % size == i
  {
    if j < 0 {
      assert (j + size) % size == j % size;
    }
  }

  // ----- equal tensors -----

  /** Where an entry of `Pairwise` is read. */
  lemma PairWithin(s: seq<nat>, idx: seq<nat>)
    requires |s| >= 2 && |idx| == |s| - 1
    requires var r, c := s[|s| - 2], s[|s| - 1];
             (r == c || r == 1 || c == 1) && Within(s[..|s| - 2] + [if r == 1 then c else r], idx)
    ensures Within(s, PairAt(idx, s[|s| - 2], s[|s| - 1]))
  {
    var n, r, c := |s|, s[|s| - 2], s[|s| - 1];
    var p := s[..n - 2] + [if r == 1 then c else r];
    assert p[n - 2] == if r == 1 then c else r;
    forall d | 0 <= d < n - 2 ensures idx[d] < s[d] {
      assert p[d] == s[d];
    }
  }

  lemma PairwiseSame(t: Tensor, u: Tensor)
    requires Same(t, u) && |t.shape| >= 2 && Pairwise(t).Ok?
    ensures Pairwise(u).Ok? && Same(Pairwise(t).value, Pairwise(u).value)
  {
    var p := Pairwise(t).value;
    hide Within, PairAt;
    forall idx | Within(p.shape, idx) ensures p.at(idx) == Pairwise(u).value.at(idx) {
      WithinLength(p.shape, idx);
      PairWithin(t.shape, idx);
    }
  }

  lemma WithinLength(s: seq<nat>, idx: seq<nat>)
    requires Within(s, idx)
    ensures |idx| == |s|
  {
  }

  lemma DenseAxesSame(t: Tensor, u: Tensor, all: seq<Item>)
    requires Same(t, u) && |all| == |t.shape| >= 2 && DenseAxes(t, all).Ok?
    ensures |u.shape| == |t.shape| && DenseAxes(u, all).Ok?
    ensures Same(DenseAxes(t, all).value, DenseAxes(u, all).value)
  {
    hide IndexAxes, Pairwise, Same;
    SameShape(t, u);
    IndexAxesSame(t, u, all);
    var v, w := IndexAxes(t, all).value, IndexAxes(u, all).value;
    SameShape(v, w);
    if all[|all| - 2].Listed? && all[|all| - 1].Listed? && |v.shape| >= 2 {
      PairwiseSame(v, w);
    }
  }

  // ----- ellipses -----

  predicate Plain(items: seq<Entry>) {
    forall i :: 0 <= i < |items| ==> items[i].One?
  }

  function ItemsOf(items: seq<Entry>): (r: seq<Item>)
    requires Plain(items)
    ensures |r| == |items| && forall i :: 0 <= i < |r| ==> r[i] == items[i].item
  {
    seq(|items|, i requires 0 <= i < |items| => items[i].item)
  }

  lemma {:induction false} ExpandPlain(items: seq<Entry>, k: nat)
    requires Plain(items)
    ensures Expand(items, k) == ItemsOf(items) && Given(items) == |items|
  {
    if items == [] {
    } else {
      ExpandPlain(items[1..], k);
      assert ItemsOf(items) == [items[0].item] + ItemsOf(items[1..]);
    }
  }

  lemma {:induction false} ExpandAround(before: seq<Entry>, after: seq<Entry>, k: nat)
    requires Plain(before) && Plain(after)
    ensures Expand(before + [Ellipsis] + after, k) == ItemsOf(before) + Whole(k) + ItemsOf(after)
    ensures Given(before + [Ellipsis] + after) == |before| + |after|
    decreases |before|
  {
    var items := before + [Ellipsis] + after;
    if before == [] {
      assert items[1..] == after && items[0] == Ellipsis;
      ExpandPlain(after, k);
      ExpandStep(items, k);
      hide Expand, Given;
      assert ItemsOf(before) + Whole(k) == Whole(k);
    } else {
      var rest := before[1..];
      assert items[1..] == rest + [Ellipsis] + after && items[0] == before[0];
      ExpandAround(rest, after, k);
      assert ItemsOf(before) == [before[0].item] + ItemsOf(rest);
      ExpandStep(items, k);
      hide Expand, Given, ItemsOf, Whole;
      JoinFour([before[0].item], ItemsOf(rest), Whole(k), ItemsOf(after));
    }
  }

  lemma ExpandStep(items: seq<Entry>, k: nat)
    requires items != []
    ensures Expand(items, k) == (if items[0].One? then [items[0].item] else Whole(k)) + Expand(items[1..], k)
    ensures Given(items) == (if items[0].One? then 1 else 0) + Given(items[1..])
  {
    hide Whole;
  }

  lemma JoinFour(a: seq<Item>, b: seq<Item>, c: seq<Item>, d: seq<Item>)
    ensures a + (b + c + d) == a + b + c + d
  {
  }

  /** Shifting by whole axes changes nothing only for whole axes. */
  lemma ShiftWhole(q: seq<Item>, m: nat, i: nat)
    requires m > 0 && q + Whole(m) == Whole(m) + q && i < |q|
    ensures q[i] == ALL
    decreases i
  {
    assert (q + Whole(m))[i] == q[i];
    if i < m {
      assert (Whole(m) + q)[i] == ALL;
    } else {
      ShiftWhole(q, m, i - m);
      assert (Whole(m) + q)[i] == q[i - m];
    }
  }

  lemma ShiftExactly(p: seq<Item>, q: seq<Item>, k: nat, m: nat)
    requires m > 0
    ensures p + Whole(k) + q + Whole(m) == p + Whole(k + m) + q <==> forall i :: 0 <= i < |q| ==> q[i] == ALL
  {
    var left, right := p + Whole(k) + q + Whole(m), p + Whole(k + m) + q;
    var h := |p| + k;
    assert left[h..] == q + Whole(m) && right[h..] == Whole(m) + q && left[..h] == right[..h];
    if left == right {
      forall i | 0 <= i < |q| ensures q[i] == ALL {
        ShiftWhole(q, m, i);
      }
    }
  }

  /** The tuple means the same to the class: with `before` and `after` the ellipsis, either nothing follows
      it, or there are as many other entries as other axes, or only whole axes follow and there is room. */
  predicate EllipsisHarmless(before: seq<Entry>, after: seq<Entry>, n: nat) {
    var k := |before| + |after|;
    && k <= n
    && (after == [] || 2 * k == n || (2 * k < n && forall i :: 0 <= i < |after| ==> after[i] == One(ALL)))
  }

  lemma EllipsisLast(before: seq<Entry>, n: nat)
    requires Plain(before) && before != []
    ensures var items := before + [Ellipsis] + [];
            (ClassItems(items, n).Ok? && DenseItems(items, n) == ClassItems(items, n)) <==> |before| <= n
  {
    var items, k := before + [Ellipsis] + [], |before|;
    assert items[..|items| - 1] == before;
    ExpandPlain(before, k - 1);
    hide Expand, Given;
    if k <= n {
      ExpandAround(before, [], n - k);
      assert ItemsOf(before) + Whole(n - k) + ItemsOf([]) + Whole(0) == Filled(ItemsOf(before), n);
    }
  }

  lemma EndsPlain(items: seq<Entry>, n: nat)
    requires items != [] && items[|items| - 1].One?
    ensures var all := Expand(items, |items| - 1);
            ClassItems(items, n) == if |all| > n then Err(TorchError) else Ok(all + Whole(n - |all|))
  {
    hide Expand, Whole;
  }

  lemma EndOf(before: seq<Entry>, after: seq<Entry>)
    requires after != []
    ensures var items := before + [Ellipsis] + after;
            |items| - 1 == |before| + |after| && items[|items| - 1] == after[|after| - 1]
  {
  }

  lemma ClassInside(before: seq<Entry>, after: seq<Entry>, n: nat)
    requires Plain(before) && Plain(after) && after != []
    ensures var items, k := before + [Ellipsis] + after, |before| + |after|;
            ClassItems(items, n) ==
            if 2 * k > n then Err(TorchError)
            else Ok(ItemsOf(before) + Whole(k) + ItemsOf(after) + Whole(n - 2 * k))
  {
    hide Expand, Whole, ItemsOf, ClassItems;
    ExpandAround(before, after, |before| + |after|);
    EndOf(before, after);
    EndsPlain(before + [Ellipsis] + after, n);
  }

  lemma DenseInside(before: seq<Entry>, after: seq<Entry>, n: nat)
    requires Plain(before) && Plain(after)
    ensures var items, k := before + [Ellipsis] + after, |before| + |after|;
            DenseItems(items, n) ==
            if k > n then Err(TorchError) else Ok(ItemsOf(before) + Whole(n - k) + ItemsOf(after))
  {
    var items, k := before + [Ellipsis] + after, |before| + |after|;
    ExpandAround(before, after, if k <= n then n - k else 0);
    hide Expand, Given;
    if k <= n {
      var all := ItemsOf(before) + Whole(n - k) + ItemsOf(after);
      assert all + Whole(0) == all;
    }
  }

  lemma EllipsisInside(before: seq<Entry>, after: seq<Entry>, n: nat)
    requires Plain(before) && Plain(after) && after != []
    ensures var items := before + [Ellipsis] + after;
            (ClassItems(items, n).Ok? && DenseItems(items, n) == ClassItems(items, n)) <==>
            EllipsisHarmless(before, after, n)
  {
    hide ClassItems, DenseItems;
    var k := |before| + |after|;
    var p, q := ItemsOf(before), ItemsOf(after);
    ClassInside(before, after, n);
    DenseInside(before, after, n);
    if 2 * k == n {
      assert p + Whole(k) + q + Whole(0) == p + Whole(k) + q;
    } else if 2 * k < n {
      ShiftExactly(p, q, k, n - 2 * k);
      assert (forall i :: 0 <= i < |q| ==> q[i] == ALL) <==> forall i :: 0 <= i < |after| ==> after[i] == One(ALL);
    }
  }

  /** For every tuple with one ellipsis and some other entry: class and tensor read the same entries off it
      exactly when the ellipsis is harmless. */
  lemma EllipsisExactly(before: seq<Entry>, after: seq<Entry>, n: nat)
    requires Plain(before) && Plain(after) && |before| + |after| > 0
    ensures var items := before + [Ellipsis] + after;
            (ClassItems(items, n).Ok? && DenseItems(items, n) == ClassItems(items, n)) <==>
            EllipsisHarmless(before, after, n)
  {
    hide ClassItems, DenseItems;
    if after == [] {
      EllipsisLast(before, n);
    } else {
      EllipsisInside(before, after, n);
    }
  }

  /** Without one they always do. */
  lemma PlainAgrees(items: seq<Entry>, n: nat)
    requires Plain(items) && items != []
    ensures (ClassItems(items, n).Ok? && DenseItems(items, n) == ClassItems(items, n)) <==> |items| <= n
  {
    ExpandPlain(items, |items| - 1);
    if |items| <= n {
      ExpandPlain(items, n - |items|);
    }
    hide Expand, Given;
  }

  /** For a batch with one leading axis, a slice behind an ellipsis is meant for the columns; the class
      accepts it and takes rows. */
  lemma EllipsisMisread(l: Lora, range: Range)
    requires Meaningful(l) && |l.a.shape| == 3 && Sliced(range, 0).Ok?
    ensures var items := [Ellipsis, One(Part(range))];
            var jr, jc := Sliced(range, Shape(l)[1]).value, Sliced(range, Shape(l)[2]).value;
            && LoraTuple(l, items).Ok? && Meaningful(LoraTuple(l, items).value)
            && Shape(LoraTuple(l, items).value) == Shape(l)[1 := |jr|]
            && IndexAxes(Product(l), [ALL, Part(range), ALL]).Ok?
            && Same(IndexAxes(Product(l), [ALL, Part(range), ALL]).value, Product(LoraTuple(l, items).value))
            && DenseTuple(Product(l), items).Ok?
            && DenseTuple(Product(l), items).value.shape == Shape(l)[2 := |jc|]
  {
    var item := Part(range);
    var items, wide := [Ellipsis, One(item)], [ALL, item, ALL];
    ExpandAround([], [One(item)], 1);
    ExpandAround([], [One(item)], 2);
    assert [] + [Ellipsis] + [One(item)] == items;
    hide Expand, Given, Sliced;
    assert ClassItems(items, 3) == Ok(wide) by {
      assert ItemsOf([]) + Whole(1) + ItemsOf([One(item)]) + Whole(1) == wide;
    }
    assert DenseItems(items, 3) == Ok([ALL, ALL, item]) by {
      assert ItemsOf([]) + Whole(2) + ItemsOf([One(item)]) + Whole(0) == [ALL, ALL, item];
    }
    hide ClassItems, DenseItems, IndexAxes, Same;
    MisreadFactors(l, range);
    MisreadDense(l, range);
    assert wide[..1] == [ALL];
  }

  lemma MisreadFactors(l: Lora, range: Range)
    requires Meaningful(l) && |l.a.shape| == 3 && Sliced(range, 0).Ok?
    ensures var jr := Sliced(range, Shape(l)[1]).value;
            var r := IndexFactors(l, [ALL], Part(range), ALL);
            && r.Ok? && Meaningful(r.value) && Shape(r.value) == Shape(l)[1 := |jr|]
            && IndexAxes(Product(l), [ALL, Part(range), ALL]).Ok?
            && Same(IndexAxes(Product(l), [ALL, Part(range), ALL]).value, Product(r.value))
  {
    var w := IndexAxes(Product(l), [ALL] + [Part(range)] + [ALL]);
    assert Shape(l)[1] == l.b.shape[1];
    AllPositions(l.b.shape[0]);
    assert LeadsFit(l, [ALL]);
    hide Product, IndexAxis, IndexAxes, IndexFactors, Sliced, LeadsFit, Same, Take;
    IndexFactorsCommutes(l, [ALL], Part(range), ALL);
    AxesShape(Product(l), ALL, Part(range), ALL);
    AllPositions(Shape(l)[0]);
    AllPositions(Shape(l)[2]);
    assert [ALL] + [Part(range)] + [ALL] == [ALL, Part(range), ALL];
    assert w.Ok?;
    SameShape(w.value, Product(IndexFactors(l, [ALL], Part(range), ALL).value));
  }

  lemma MisreadDense(l: Lora, range: Range)
    requires Meaningful(l) && |l.a.shape| == 3 && Sliced(range, 0).Ok?
    ensures var jc := Sliced(range, Shape(l)[2]).value;
            var r := DenseAxes(Product(l), [ALL, ALL, Part(range)]);
            r.Ok? && r.value.shape == Shape(l)[2 := |jc|]
  {
    hide Product, IndexAxis, IndexAxes, Sliced;
    AxesShape(Product(l), ALL, ALL, Part(range));
    AllPositions(Shape(l)[0]);
    AllPositions(Shape(l)[1]);
  }

  lemma AxesShape(t: Tensor, x: Item, y: Item, z: Item)
    requires |t.shape| == 3 && x.Part? && y.Part? && z.Part?
    requires Positions(x, t.shape[0]).Ok? && Positions(y, t.shape[1]).Ok? && Positions(z, t.shape[2]).Ok?
    ensures var r := IndexAxes(t, [x, y, z]);
            r.Ok? && r.value.shape == [|Positions(x, t.shape[0]).value|, |Positions(y, t.shape[1]).value|,
                                       |Positions(z, t.shape[2]).value|]
  {
    hide Positions, Take;
    var u := IndexAxis(t, 2, z).value;
    var v := IndexAxis(u, 1, y).value;
    var w := IndexAxis(v, 0, x).value;
    hide IndexAxis, IndexAxes;
    AxesUnfold(t, [x, y], z);
    AxesUnfold(u, [x], y);
    AxesUnfold(v, [], x);
    assert [x, y] + [z] == [x, y, z] && [x] + [y] == [x, y] && [] + [x] == [x];
    NoAxes(w);
  }

  lemma NoAxes(t: Tensor)
    ensures IndexAxes(t, []) == Ok(t)
  {
  }
}
