/** Splitting an axis: the parts are, in order, the whole axis, and splitting is undone by putting the
    parts together and undoes it. */
module SplitLaws {
  import opened Wrappers
  import opened Tensor
  import opened TensorLaws
  import opened Lora
  import opened LoraParts
  import opened LoraJoins

  /** The positions of all parts, one part after the other. */
  function Joined(cs: seq<seq<nat>>): seq<nat> {
    if cs == [] then [] else cs[0] + Joined(cs[1..])
  }

  lemma {:induction false} ChunksJoin(ss: seq<nat>, lo: nat)
    ensures Joined(ChunksFrom(ss, lo)) == Interval(lo, SumOf(ss))
    decreases |ss|
  {
    if ss != [] {
      ChunksJoin(ss[1..], lo + ss[0]);
      assert ChunksFrom(ss, lo)[1..] == ChunksFrom(ss[1..], lo + ss[0]);
      assert Interval(lo, ss[0]) + Interval(lo + ss[0], SumOf(ss[1..])) == Interval(lo, SumOf(ss));
    }
  }

  /** All parts have the given size, only the last one may be smaller, and none is empty unless the axis is. */
  lemma {:induction false} EvenParts(size: nat, len: nat)
    requires size > 0
    ensures var r := EvenSizes(size, len);
            && r != []
            && (forall i :: 0 <= i < |r| - 1 ==> r[i] == size)
            && r[|r| - 1] <= size && (len > 0 ==> r[|r| - 1] > 0)
    decreases len
  {
    if len > size {
      EvenParts(size, len - size);
    }
  }

  /** What may be split at all. */
  predicate Splits(size: SplitSize, len: nat) {
    match size
    case Every(s) => s > 0 || len == 0
    case Sizes(ss) => SumOf(ss) == len
  }

  /** The parts have the sizes asked for. */
  predicate AsAsked(size: SplitSize, len: nat, cs: seq<seq<nat>>) {
    match size
    case Sizes(ss) => |cs| == |ss| && forall i :: 0 <= i < |cs| ==> |cs[i]| == ss[i]
    case Every(s) =>
      && cs != []
      && (forall i :: 0 <= i < |cs| - 1 ==> |cs[i]| == s)
      && |cs[|cs| - 1]| <= s
      && (len > 0 ==> |cs[|cs| - 1]| > 0)
  }

  lemma EvenChunks(s: nat, len: nat)
    requires s > 0
    ensures AsAsked(Every(s), len, ChunksFrom(EvenSizes(s, len), 0))
    ensures Joined(ChunksFrom(EvenSizes(s, len), 0)) == Interval(0, len)
  {
    EvenParts(s, len);
    ChunksJoin(EvenSizes(s, len), 0);
    hide Joined, SumOf, EvenSizes, Chunks;
  }

  /** When an axis can be split, and into what: parts of the sizes asked for that are, in order, the
      whole axis. */
  lemma ChunksExactly(size: SplitSize, len: nat)
    ensures Chunks(size, len).Ok? <==> Splits(size, len)
    ensures Chunks(size, len).Ok? ==>
              var cs := Chunks(size, len).value; AsAsked(size, len, cs) && Joined(cs) == Interval(0, len)
  {
    match size
    case Every(s) =>
      if s > 0 {
        EvenChunks(s, len);
      } else if len == 0 {
        assert Joined([[]]) == [] + Joined([]) == Interval(0, 0);
      }
    case Sizes(ss) =>
      if SumOf(ss) == len {
        ChunksJoin(ss, 0);
      }
  }

  lemma {:induction false} JoinedLast(cs: seq<seq<nat>>)
    requires cs != []
    ensures Joined(cs) == Joined(cs[..|cs| - 1]) + cs[|cs| - 1]
    decreases |cs|
  {
    if |cs| == 1 {
      assert cs[1..] == [];
    } else {
      var front, last := cs[..|cs| - 1], cs[|cs| - 1];
      JoinedLast(cs[1..]);
      assert cs[1..][..|cs| - 2] == front[1..];
      assert cs[0] + (Joined(front[1..]) + last) == (cs[0] + Joined(front[1..])) + last;
    }
  }

  lemma {:induction false} JoinedBelow(cs: seq<seq<nat>>, len: nat)
    requires AllInside(cs, len)
    ensures AllBelow(Joined(cs), len)
    decreases |cs|
  {
    if cs != [] {
      assert AllBelow(cs[0], len);
      JoinedBelow(cs[1..], len);
    }
  }

  lemma CatTakesStep(t: Tensor, js: seq<nat>, ks: seq<nat>, u: Tensor)
    requires t.shape != [] && AllBelow(js, t.shape[0]) && AllBelow(ks, t.shape[0])
    requires Same(Take(t, 0, js), u)
    ensures AllBelow(js + ks, t.shape[0])
    ensures var c := Cat(u, Take(t, 0, ks)); c.Ok? && Same(Take(t, 0, js + ks), c.value)
  {
    hide Take, Cat, Same;
    CatTake(t, js, ks);
    CatSame(Take(t, 0, js), u, Take(t, 0, ks));
    SameTransitive(Take(t, 0, js + ks), Cat(Take(t, 0, js), Take(t, 0, ks)).value, Cat(u, Take(t, 0, ks)).value);
  }

  lemma CatAllSteps(ts: seq<Tensor>)
    requires ts != [] && ts[0].shape != []
    ensures |ts| == 1 ==> CatAll(ts) == Ok(ts[0])
    ensures |ts| > 1 && CatAll(ts[..|ts| - 1]).Ok? ==>
              CatAll(ts) == Cat(CatAll(ts[..|ts| - 1]).value, ts[|ts| - 1])
  {
    hide Cat;
  }

  /** Parts put together again are the part that all their positions make. */
  lemma {:induction false} CatTakes(t: Tensor, cs: seq<seq<nat>>)
    requires t.shape != [] && cs != [] && AllInside(cs, t.shape[0])
    ensures AllBelow(Joined(cs), t.shape[0])
    ensures var c := CatAll(Takes(t, 0, cs)); c.Ok? && Same(Take(t, 0, Joined(cs)), c.value)
    decreases |cs|
  {
    JoinedBelow(cs, t.shape[0]);
    JoinedLast(cs);
    CatAllSteps(Takes(t, 0, cs));
    var k := |cs| - 1;
    if k == 0 {
      assert Joined(cs) == cs[0];
    } else {
      hide Take, Cat, CatAll, Same;
      assert Takes(t, 0, cs)[..k] == Takes(t, 0, cs[..k]);
      CatTakes(t, cs[..k]);
      CatTakesStep(t, Joined(cs[..k]), cs[k], CatAll(Takes(t, 0, cs[..k])).value);
    }
  }

  /** Splitting the first axis and putting the parts together again gives the tensor back. */
  lemma SplitJoins(t: Tensor, size: SplitSize, dim: int)
    requires t.shape != [] && (dim == 0 || dim == -(|t.shape| as int))
    requires DenseSplit(t, size, dim).Ok? && DenseSplit(t, size, dim).value != []
    ensures var c := CatAll(DenseSplit(t, size, dim).value); c.Ok? && Same(t, c.value)
  {
    var cs := Chunks(size, t.shape[0]).value;
    ChunksExactly(size, t.shape[0]);
    CatTakes(t, cs);
    TakeWhole(t, 0);
    hide Take, CatAll, Same;
    SameTransitive(t, Take(t, 0, Joined(cs)), CatAll(Takes(t, 0, cs)).value);
  }

  /** The sizes of the first axis; every operand of a concatenation has one. */
  function RowCounts(ts: seq<Tensor>): (r: seq<nat>)
    ensures |r| == |ts| && forall i :: 0 <= i < |ts| && ts[i].shape != [] ==> r[i] == ts[i].shape[0]
  {
    seq(|ts|, i requires 0 <= i < |ts| => if ts[i].shape == [] then 0 else ts[i].shape[0])
  }

  lemma {:induction false} SumLast(ss: seq<nat>, n: nat)
    ensures SumOf(ss + [n]) == SumOf(ss) + n
    decreases |ss|
  {
    if ss == [] {
      assert ss + [n] == [n];
    } else {
      SumLast(ss[1..], n);
      assert (ss + [n])[1..] == ss[1..] + [n];
    }
  }

  /** Each part begins where the sizes before it add up to. */
  lemma {:induction false} ChunkAt(ss: seq<nat>, lo: nat, i: nat)
    requires i < |ss|
    ensures ChunksFrom(ss, lo)[i] == Interval(lo + SumOf(ss[..i]), ss[i])
    decreases |ss|
  {
    if i == 0 {
      assert ss[..0] == [];
    } else {
      ChunkAt(ss[1..], lo + ss[0], i - 1);
      assert ss[..i][1..] == ss[1..][..i - 1];
    }
  }

  lemma RowsLast(ts: seq<Tensor>)
    requires ts != [] && ts[|ts| - 1].shape != []
    ensures RowCounts(ts) == RowCounts(ts[..|ts| - 1]) + [ts[|ts| - 1].shape[0]]
  {
  }

  lemma CatLeftPart(t: Tensor, u: Tensor, js: seq<nat>, part: Tensor)
    requires Cat(t, u).Ok? && AllBelow(js, t.shape[0]) && Same(Take(t, 0, js), part)
    ensures var c := Cat(t, u).value; AllBelow(js, c.shape[0]) && Same(Take(c, 0, js), part)
  {
    CatHolds(t, u);
    var c := Cat(t, u).value;
    var left := Take(c, 0, Interval(0, t.shape[0]));
    assert AllBelow(js, c.shape[0]);
    hide Take, Cat, Same;
    TakeTake(c, Interval(0, t.shape[0]), js, js);
    TakeSame(left, t, 0, js);
    SameSymmetric(Take(left, 0, js), Take(c, 0, js));
    SameTransitive(Take(c, 0, js), Take(left, 0, js), Take(t, 0, js));
    SameTransitive(Take(c, 0, js), Take(t, 0, js), part);
  }

  lemma CatAllEnds(ts: seq<Tensor>)
    requires CatAll(ts).Ok?
    ensures ts != [] && ts[|ts| - 1].shape != []
    ensures |ts| == 1 ==> CatAll(ts) == Ok(ts[0])
    ensures |ts| > 1 ==> && CatAll(ts[..|ts| - 1]).Ok?
                         && CatAll(ts) == Cat(CatAll(ts[..|ts| - 1]).value, ts[|ts| - 1])
  {
  }

  lemma CatOneHolds(t: Tensor)
    requires t.shape != []
    ensures SumOf(RowCounts([t])) == t.shape[0] && Same(Take(t, 0, Interval(0, t.shape[0])), t)
  {
    assert RowCounts([t]) == [] + [t.shape[0]];
    SumLast([], t.shape[0]);
    TakeWhole(t, 0);
  }

  lemma CatSecond(t: Tensor, u: Tensor, js: seq<nat>)
    requires Cat(t, u).Ok? && js == Interval(t.shape[0], u.shape[0])
    ensures var c := Cat(t, u).value;
            && c.shape != [] && c.shape[0] == t.shape[0] + u.shape[0]
            && AllBelow(js, c.shape[0]) && Same(Take(c, 0, js), u)
  {
    CatHolds(t, u);
  }

  /** Where an operand begins. */
  function RowsBefore(ts: seq<Tensor>, i: nat): nat
    requires i <= |ts|
  {
    SumOf(RowCounts(ts[..i]))
  }

  lemma BeforeInFront(ts: seq<Tensor>, k: nat, i: nat)
    requires i <= k <= |ts|
    ensures RowsBefore(ts[..k], i) == RowsBefore(ts, i)
  {
    assert ts[..k][..i] == ts[..i];
  }

  /** A concatenation holds every operand, behind those before it. */
  lemma {:induction false} CatAllHolds(ts: seq<Tensor>, i: nat)
    requires CatAll(ts).Ok? && i < |ts|
    ensures CatAll(ts).value.shape != [] && CatAll(ts).value.shape[0] == SumOf(RowCounts(ts))
    ensures ts[i].shape != [] && RowsBefore(ts, i) + ts[i].shape[0] <= SumOf(RowCounts(ts))
    ensures Same(Take(CatAll(ts).value, 0, Interval(RowsBefore(ts, i), ts[i].shape[0])), ts[i])
    decreases |ts|
  {
    CatAllEnds(ts);
    var k := |ts| - 1;
    if k == 0 {
      CatOneHolds(ts[0]);
      assert ts == [ts[0]] && ts[..0] == [];
    } else {
      hide Take, Cat, CatAll, Same, SumOf;
      var front, ss := CatAll(ts[..k]).value, RowCounts(ts[..k]);
      assert RowsBefore(ts, k) == SumOf(ss);
      hide RowsBefore;
      RowsLast(ts);
      CatAllHolds(ts[..k], if i < k then i else 0);
      SumLast(ss, ts[k].shape[0]);
      CatSecond(front, ts[k], Interval(front.shape[0], ts[k].shape[0]));
      if i < k {
        BeforeInFront(ts, k, i);
        CatLeftPart(front, ts[k], Interval(RowsBefore(ts, i), ts[i].shape[0]), ts[i]);
      }
    }
  }

  lemma SizesSplit(t: Tensor, ss: seq<nat>)
    requires t.shape != [] && t.shape[0] == SumOf(ss)
    ensures AllInside(ChunksFrom(ss, 0), t.shape[0])
    ensures DenseSplit(t, Sizes(ss), 0) == Ok(Takes(t, 0, ChunksFrom(ss, 0)))
  {
    hide Takes;
  }

  lemma CountsBefore(ts: seq<Tensor>, i: nat)
    requires i <= |ts|
    ensures SumOf(RowCounts(ts)[..i]) == RowsBefore(ts, i)
  {
    hide SumOf;
    assert RowCounts(ts)[..i] == RowCounts(ts[..i]);
  }

  lemma PartBegins(ts: seq<Tensor>, i: nat)
    requires i < |ts| && ts[i].shape != []
    ensures ChunksFrom(RowCounts(ts), 0)[i] == Interval(RowsBefore(ts, i), ts[i].shape[0])
  {
    hide *;
    ChunkAt(RowCounts(ts), 0, i);
    CountsBefore(ts, i);
  }

  lemma IntervalBelow(lo: nat, n: nat, size: nat)
    requires lo + n <= size
    ensures AllBelow(Interval(lo, n), size)
  {
  }

  lemma JoinPart(ts: seq<Tensor>, i: nat)
    requires CatAll(ts).Ok? && i < |ts|
    ensures var (c, js) := (CatAll(ts).value, ChunksFrom(RowCounts(ts), 0)[i]);
            && c.shape != [] && c.shape[0] == SumOf(RowCounts(ts))
            && AllBelow(js, c.shape[0]) && Same(Take(c, 0, js), ts[i])
  {
    hide *;
    CatAllHolds(ts, i);
    IntervalBelow(RowsBefore(ts, i), ts[i].shape[0], SumOf(RowCounts(ts)));
    PartBegins(ts, i);
  }

  lemma AllSameIs(ts: seq<Tensor>, us: seq<Tensor>)
    requires |ts| == |us| && forall i :: 0 <= i < |ts| ==> Same(ts[i], us[i])
    ensures AllSame(ts, us)
  {
  }

  /** Putting tensors together and splitting by their sizes gives each of them back. */
  lemma JoinSplits(ts: seq<Tensor>)
    requires CatAll(ts).Ok?
    ensures var r := DenseSplit(CatAll(ts).value, Sizes(RowCounts(ts)), 0); r.Ok? && AllSame(r.value, ts)
  {
    CatAllEnds(ts);
    hide *;
    JoinPart(ts, 0);
    SizesSplit(CatAll(ts).value, RowCounts(ts));
    forall i | 0 <= i < |ts| ensures Same(Take(CatAll(ts).value, 0, ChunksFrom(RowCounts(ts), 0)[i]), ts[i]) {
      JoinPart(ts, i);
    }
    AllSameIs(Takes(CatAll(ts).value, 0, ChunksFrom(RowCounts(ts), 0)), ts);
  }

  /** The same for a factored weight: the products of the parts, put together, are the product. */
  lemma LoraSplitJoins(l: Lora, size: SplitSize, dim: int)
    requires Meaningful(l) && (dim == 0 || dim == -(|l.a.shape| as int))
    requires LoraSplit(l, size, dim).Ok? && LoraSplit(l, size, dim).value != []
    ensures var ls := LoraSplit(l, size, dim).value;
            && AllMeaningful(ls)
            && CatAll(Products(ls)).Ok? && Same(Product(l), CatAll(Products(ls)).value)
  {
    SplitCommutes(l, size, dim);
    hide LoraSplit, DenseSplit, CatAll, Product, Same, Meaningful;
    var ls, ws := LoraSplit(l, size, dim).value, DenseSplit(Product(l), size, dim).value;
    SplitJoins(Product(l), size, dim);
    AllSameIs(ws, Products(ls));
    CatAllSame(ws, Products(ls));
    SameTransitive(Product(l), CatAll(ws).value, CatAll(Products(ls)).value);
  }
}
