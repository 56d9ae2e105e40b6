/** What the product of two factors is, apart from its definition: entries of matrices, factors of rank
    one, and a rank that is cut in two. */
module ProductLaws {
  import opened Tensor
  import opened TensorLaws
  import opened Lora

  /** Row times column. */
  lemma MatrixEntry(l: Lora, i: nat, j: nat)
    requires Meaningful(l) && |l.a.shape| == 2 && Within(Shape(l), [i, j])
    ensures Product(l).at([i, j]) == Sum(Rank(l), (k: nat) => l.b.at([i, k]) * l.a.at([k, j]))
  {
    var f := (k: nat) => l.b.at([i, k]) * l.a.at([k, j]);
    forall k: nat | k < Rank(l) ensures Term(l, [i, j])(k) == f(k) {
      assert IndexB([i, j], k) == [i, k];
      assert IndexA(l.a.shape, [i, j], k) == [k, j];
    }
    SumSame(Rank(l), Term(l, [i, j]), f);
  }

  /** A single column times a single row. */
  lemma RankOne(l: Lora, i: nat, j: nat)
    requires Meaningful(l) && |l.a.shape| == 2 && Rank(l) == 1 && Within(Shape(l), [i, j])
    ensures Product(l).at([i, j]) == l.b.at([i, 0]) * l.a.at([0, j])
  {
    MatrixEntry(l, i, j);
    var f := (k: nat) => l.b.at([i, k]) * l.a.at([k, j]);
    assert Sum(1, f) == Sum(0, f) + f(0);
  }

  /** The factors restricted to some of the rank. */
  function RankPart(l: Lora, lo: nat, len: nat): (r: Lora)
    requires Meaningful(l) && lo + len <= Rank(l)
    ensures Meaningful(r) && Rank(r) == len && Shape(r) == Shape(l)
  {
    var n := |l.a.shape|;
    var r := Lora(Take(l.a, n - 2, Interval(lo, len)), Take(l.b, n - 1, Interval(lo, len)));
    assert Shape(r) == Shape(l);
    r
  }

  lemma RankPartTerm(l: Lora, lo: nat, len: nat, idx: seq<nat>, k: nat)
    requires Meaningful(l) && lo + len <= Rank(l) && |idx| == |l.a.shape| && k < len
    ensures Term(RankPart(l, lo, len), idx)(k) == Term(l, idx)(lo + k)
  {
    var n, r := |l.a.shape|, RankPart(l, lo, len);
    assert IndexB(idx, k)[n - 1 := lo + k] == IndexB(idx, lo + k);
    assert IndexA(r.a.shape, idx, k)[n - 2 := lo + k] == IndexA(l.a.shape, idx, lo + k);
  }

  lemma EntryIsSum(l: Lora, idx: seq<nat>)
    requires Meaningful(l) && Within(Shape(l), idx)
    ensures Product(l).at(idx) == Sum(Rank(l), Term(l, idx))
  {
    hide Term;
  }

  lemma RankPartSum(l: Lora, lo: nat, len: nat, idx: seq<nat>)
    requires Meaningful(l) && lo + len <= Rank(l) && Within(Shape(l), idx)
    ensures Product(RankPart(l, lo, len)).at(idx) == Sum(len, (k: nat) => Term(l, idx)(lo + k))
  {
    var r, f := RankPart(l, lo, len), Term(l, idx);
    hide Term, RankPart, Product, Sum, Within;
    var g := (k: nat) => f(lo + k);
    EntryIsSum(r, idx);
    forall k: nat | k < len ensures Term(r, idx)(k) == g(k) {
      RankPartTerm(l, lo, len, idx, k);
    }
    SumSame(len, Term(r, idx), g);
    SumSame(len, g, (k: nat) => Term(l, idx)(lo + k));
  }

  lemma FromZero(n: nat, f: nat -> real)
    ensures Sum(n, (k: nat) => f(0 + k)) == Sum(n, f)
  {
    SumSame(n, (k: nat) => f(0 + k), f);
  }

  /** Cutting the rank in two, the products of both parts add up to the product. */
  lemma ProductAdds(l: Lora, m: nat, idx: seq<nat>)
    requires Meaningful(l) && m <= Rank(l) && Within(Shape(l), idx)
    ensures Product(l).at(idx)
         == Product(RankPart(l, 0, m)).at(idx) + Product(RankPart(l, m, Rank(l) - m)).at(idx)
  {
    var n, f := Rank(l) - m, Term(l, idx);
    hide *;
    EntryIsSum(l, idx);
    SumSplits(m, n, f);
    RankPartSum(l, 0, m, idx);
    FromZero(m, f);
    RankPartSum(l, m, n, idx);
  }
}
