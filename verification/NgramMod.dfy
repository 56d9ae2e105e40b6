/** The n-gram table: a fixed array of next tokens, addressed by a polynomial hash that wraps at
    64 bits and keeps no keys. An entry therefore overwrites any other with the same slot. The
    table is described by the history of everything that was added to it: a slot holds what was
    added to it last, or the empty mark. The count of occupied slots is kept beside the array,
    and it goes wrong for a token that is the empty mark itself. */
module NgramMod {

  const EMPTY := -1

  const WORD := 0x1_0000_0000_0000_0000

  const FACTOR := 6364136223846793005

  // ----- the hash -----

  function Power(k: nat): (p: nat)
    ensures p > 0
  {
    if k == 0 then 1 else FACTOR * Power(k - 1)
  }

  /** The sum of t[i] * FACTOR^(n - 1 - i). */
  function Polynomial(t: seq<int>): int {
    if t == [] then 0 else t[0] * Power(|t| - 1) + Polynomial(t[1..])
  }

  function Slot(t: seq<int>, size: nat): (i: nat)
    requires size > 0
    ensures i < size
  {
    (Polynomial(t) % WORD) % size
  }

  lemma {:induction false} PolynomialSnoc(t: seq<int>, x: int)
    ensures Polynomial(t + [x]) == Polynomial(t) * FACTOR + x
  {
    if t == [] {
      assert [x][1..] == [];
      assert Power(0) == 1;
    } else {
      PolynomialSnoc(t[1..], x);
      var u := t + [x];
      assert u[1..] == t[1..] + [x] && u[0] == t[0];
      Distribute(t[0], Power(|t| - 1), Polynomial(t[1..]));
    }
  }

  lemma Distribute(a: int, p: int, q: int)
    ensures a * (FACTOR * p) + q * FACTOR == (a * p + q) * FACTOR
  {
  }

  /** Wrapping at every step gives the wrapped sum. */
  lemma WrapStep(a: int, x: int)
    ensures ((a % WORD) * FACTOR + x) % WORD == (a * FACTOR + x) % WORD
  {
    var q, r := a / WORD, a % WORD;
    assert a == q * WORD + r;
    assert a * FACTOR + x == (r * FACTOR + x) + q * FACTOR * WORD by {
      assert (q * WORD + r) * FACTOR == q * FACTOR * WORD + r * FACTOR;
    }
    AddWords(r * FACTOR + x, q * FACTOR);
  }

  lemma AddWords(a: int, k: int)
    ensures (a + k * WORD) % WORD == a % WORD
  {
  }

  // ----- the table -----

  function NonEmpty(entries: seq<int>): nat {
    if entries == [] then 0 else (if entries[0] != EMPTY then 1 else 0) + NonEmpty(entries[1..])
  }

  lemma {:induction false} NonEmptyUpdate(entries: seq<int>, i: nat, x: int)
    requires i < |entries|
    ensures NonEmpty(entries[i := x]) ==
            NonEmpty(entries) - (if entries[i] != EMPTY then 1 else 0) + (if x != EMPTY then 1 else 0)
  {
    if i == 0 {
      assert entries[0 := x][1..] == entries[1..];
    } else {
      NonEmptyUpdate(entries[1..], i - 1, x);
      assert entries[i := x][1..] == entries[1..][i - 1 := x];
    }
  }

  lemma {:induction false} NoneNonEmpty(entries: seq<int>)
    requires forall k :: 0 <= k < |entries| ==> entries[k] == EMPTY
    ensures NonEmpty(entries) == 0
  {
    if entries != [] {
      NoneNonEmpty(entries[1..]);
    }
  }

  /** An n-gram and the token that followed it. */
  datatype Entry = Entry(key: seq<int>, next: int)

  function Table(size: nat, history: seq<Entry>): (t: seq<int>)
    requires size > 0
    ensures |t| == size
  {
    if history == [] then seq(size, _ => EMPTY)
    else
      var e := history[|history| - 1];
      Table(size, history[..|history| - 1])[Slot(e.key, size) := e.next]
  }

  /** How often the empty mark was added. */
  function Empties(history: seq<Entry>): nat {
    if history == [] then 0
    else Empties(history[..|history| - 1]) + if history[|history| - 1].next == EMPTY then 1 else 0
  }

  lemma {:induction false} NoEmpties(history: seq<Entry>)
    ensures Empties(history) == 0 <==> forall e <- history :: e.next != EMPTY
  {
    if history == [] {
    } else {
      var k := |history| - 1;
      NoEmpties(history[..k]);
      assert forall e <- history :: e in history[..k] || e == history[k];
    }
  }

  /** The last entry for a slot wins; a slot without entries is empty. */
  lemma {:induction false} LastWins(size: nat, history: seq<Entry>, slot: nat)
    requires size > 0 && slot < size
    ensures (forall e <- history :: Slot(e.key, size) != slot) ==> Table(size, history)[slot] == EMPTY
    ensures forall k :: 0 <= k < |history| && Slot(history[k].key, size) == slot &&
                        (forall j :: k < j < |history| ==> Slot(history[j].key, size) != slot) ==>
                        Table(size, history)[slot] == history[k].next
  {
    hide Slot;
    if history != [] {
      LastWins(size, history[..|history| - 1], slot);
    }
  }

  class Ngrams {
    const n: nat
    const size: nat
    var used: nat
    var entries: array<int>

    /** What has been added since the last reset. */
    ghost var history: seq<Entry>

    ghost predicate Valid()
      reads this, entries
    {
      && size > 0 && entries.Length == size
      && entries[..] == Table(size, history)
      && used == NonEmpty(entries[..]) + Empties(history)
    }

    /** `used` counts the occupied slots. */
    ghost predicate Counted()
      reads this, entries
    {
      used == NonEmpty(entries[..])
    }

    constructor (n: nat, size: nat)
      requires size > 0
      ensures Valid() && Counted() && fresh(entries)
      ensures this.n == n && this.size == size && history == []
    {
      this.n, this.size := n, size;
      entries := new int[size](_ => EMPTY);
      used := 0;
      history := [];
      new;
      assert entries[..] == Table(size, []);
      NoneNonEmpty(entries[..]);
    }

    method Idx(tokens: seq<int>) returns (i: nat)
      requires Valid() && |tokens| >= n
      ensures i == Slot(tokens[..n], size)
    {
      var res := 0;
      for k := 0 to n
        invariant res == Polynomial(tokens[..k]) % WORD
      {
        assert tokens[..k + 1] == tokens[..k] + [tokens[k]];
        PolynomialSnoc(tokens[..k], tokens[k]);
        WrapStep(Polynomial(tokens[..k]), tokens[k]);
        res := (res * FACTOR + tokens[k]) % WORD;
      }
      i := res % size;
    }

    /** Over every history since the last reset, the count is right exactly if the empty mark was never
        added. */
    lemma CountedExactly()
      requires Valid()
      ensures Counted() <==> forall e <- history :: e.next != EMPTY
    {
      NoEmpties(history);
    }

    /** The count stays right exactly when the token is not the empty mark. */
    method Add(tokens: seq<int>)
      requires Valid() && |tokens| > n
      modifies this`used, this`history, entries
      ensures Valid() && history == old(history) + [Entry(tokens[..n], tokens[n])]
      ensures old(Counted()) ==> (Counted() <==> tokens[n] != EMPTY)
      ensures entries == old(entries)
    {
      var i := Idx(tokens);
      NonEmptyUpdate(entries[..], i, tokens[n]);
      if entries[i] == EMPTY {
        used := used + 1;
      }
      ghost var was := entries[..];
      entries[i] := tokens[n];
      assert entries[..] == was[i := tokens[n]];
      history := history + [Entry(tokens[..n], tokens[n])];
      assert history[..|history| - 1] == old(history);
    }

    method Get(tokens: seq<int>) returns (token: int)
      requires Valid() && |tokens| >= n
      ensures token == Table(size, history)[Slot(tokens[..n], size)]
    {
      var i := Idx(tokens);
      token := entries[i];
      assert entries[..][i] == token;
    }

    method Reset()
      requires Valid()
      modifies this`used, this`history, entries
      ensures Valid() && Counted() && history == [] && entries == old(entries)
    {
      var i := 0;
      while i < entries.Length
        invariant i <= entries.Length
        invariant forall k :: 0 <= k < i ==> entries[k] == EMPTY
        modifies entries
      {
        entries[i] := EMPTY;
        i := i + 1;
      }
      used := 0;
      history := [];
      assert entries[..] == Table(size, []);
      NoneNonEmpty(entries[..]);
    }
  }
}
