/** The tensor loop of the legacy file loader: Python slices of the file at a cursor that numpy keeps
    in 64 bits. A wrapped size can move the cursor back, so the loop need not end: `Turns` is the
    loop after so many turns, and a loop that is still running after more turns than there are
    cursors in the file has come back to one of them and never ends. The same wrap decides how the
    data regions of the tensors lie to each other. */
module GgmlTensors {
  import opened Wrappers

  type Byte = b: int | 0 <= b < 256

  type Pos = n: int | n > 0 witness 1

  type Outcome<+T> = Result<T, Error>

  datatype Error = AlreadyGguf | UnpackError | BadVersion | BadMagic | BadFtype | NotEligible | AssertionFailed
    | BadType | NoSuchDim

  /** A call returns, normally or with an error, or it does not return. */
  datatype Answer<+T> = Returns(outcome: Outcome<T>) | NeverReturns

  datatype Quant = Quant(block: Pos, size: Pos)

  // ----- slices and words -----

  /** Where a slice bound falls: negative bounds count from the end, and all are clipped. */
  function Place(i: int, n: nat): (p: nat)
    ensures p <= n
  {
    if i < 0 then (if i + n < 0 then 0 else i + n) else if i > n then n else i
  }

  function Slice(data: seq<Byte>, lo: int, hi: int): seq<Byte> {
    var a, b := Place(lo, |data|), Place(hi, |data|);
    if a <= b then data[a..b] else []
  }

  const U32 := 0x1_0000_0000

  function Word(b0: int, b1: int, b2: int, b3: int): int { b0 + 0x100 * b1 + 0x1_0000 * b2 + 0x100_0000 * b3 }

  function Unpack(b: seq<Byte>): (w: seq<nat>)
    ensures |w| == |b| / 4
  {
    if |b| < 4 then [] else [Word(b[0], b[1], b[2], b[3])] + Unpack(b[4..])
  }

  /** `struct.unpack` wants all the bytes. */
  function Reads32(data: seq<Byte>, o: int, n: nat): (r: Option<seq<nat>>)
    ensures r.Some? ==> |r.value| == n
  {
    var b := Slice(data, o, o + 4 * n);
    if |b| == 4 * n then Some(Unpack(b)) else None
  }

  function Read32(data: seq<Byte>, o: int): Option<nat> {
    match Reads32(data, o, 1)
    case Some(w) => Some(w[0])
    case None => None
  }

  function Write32(x: nat): (e: seq<Byte>)
    requires x < U32
    ensures |e| == 4
  {
    [x % 0x100, x / 0x100 % 0x100, x / 0x1_0000 % 0x100, x / 0x100_0000]
  }

  predicate Words(xs: seq<nat>) { forall k :: 0 <= k < |xs| ==> xs[k] < U32 }

  function Writes32(xs: seq<nat>): (e: seq<Byte>)
    requires Words(xs)
    ensures |e| == 4 * |xs|
  {
    if xs == [] then [] else Write32(xs[0]) + Writes32(xs[1..])
  }

  /** `e` stands in the file at `o`. */
  predicate At(data: seq<Byte>, o: int, e: seq<Byte>) {
    0 <= o <= |data| - |e| && data[o..o + |e|] == e
  }

  lemma AtSplit(data: seq<Byte>, o: nat, a: seq<Byte>, b: seq<Byte>)
    requires At(data, o, a + b)
    ensures At(data, o, a) && At(data, o + |a|, b)
  {
    var e := a + b;
    assert e[..|a|] == a && e[|a|..] == b;
    assert data[o..o + |e|][..|a|] == data[o..o + |a|];
    assert data[o..o + |e|][|a|..] == data[o + |a|..o + |e|];
  }

  lemma Clips(data: seq<Byte>, o: nat, e: seq<Byte>)
    requires At(data, o, e)
    ensures Slice(data, o, o + |e|) == e
  {
  }

  lemma Digits(x: nat)
    requires x < U32
    ensures Word(x % 0x100, x / 0x100 % 0x100, x / 0x1_0000 % 0x100, x / 0x100_0000) == x
  {
    assert x / 0x1_0000 == x / 0x100 / 0x100;
    assert x / 0x100_0000 == x / 0x1_0000 / 0x100;
  }

  lemma UnpackFirst(x: nat, rest: seq<Byte>)
    requires x < U32
    ensures Unpack(Write32(x) + rest) == [x] + Unpack(rest)
  {
    Digits(x);
    hide Word;
    var b := Write32(x) + rest;
    assert b[4..] == rest;
  }

  lemma {:induction false} UnpackWritten(xs: seq<nat>)
    requires Words(xs)
    ensures Unpack(Writes32(xs)) == xs
  {
    hide Write32, Unpack;
    if xs == [] {
      UnpackNothing();
    } else {
      UnpackFirst(xs[0], Writes32(xs[1..]));
      UnpackWritten(xs[1..]);
      assert xs == [xs[0]] + xs[1..];
    }
  }

  lemma UnpackNothing()
    ensures Unpack([]) == []
  {
  }

  lemma ReadsAll(data: seq<Byte>, o: nat, xs: seq<nat>)
    requires Words(xs) && At(data, o, Writes32(xs))
    ensures Reads32(data, o, |xs|) == Some(xs)
  {
    hide At, Unpack, Slice, Writes32, Words;
    var e := Writes32(xs);
    Clips(data, o, e);
    UnpackWritten(xs);
    assert Slice(data, o, o + 4 * |xs|) == e;
  }

  lemma Reads(data: seq<Byte>, o: nat, x: nat)
    requires x < U32 && At(data, o, Write32(x))
    ensures Read32(data, o) == Some(x)
  {
    hide At, Reads32;
    assert Writes32([x]) == Write32(x) by {
      assert [x][1..] == [] && Write32(x) + [] == Write32(x);
    }
    ReadsAll(data, o, [x]);
  }

  // ----- one tensor -----

  datatype Tensor = Tensor(name: seq<Byte>, dims: seq<nat>, dtype: nat, start: int, bytes: int)

  const HALF := 0x8000_0000_0000_0000

  function Product(dims: seq<nat>): nat {
    if dims == [] then 1 else dims[0] * Product(dims[1..])
  }

  function Wrap64(x: int): (w: int)
    ensures -HALF <= w < HALF
    ensures -HALF <= x < HALF ==> w == x
  {
    (x + HALF) % (2 * HALF) - HALF
  }

  function NumBytes(dims: seq<nat>, q: Quant): int { Wrap64(Wrap64(Product(dims)) * q.size) / q.block }

  /** Products small enough for 64 bits. */
  predicate NoWrap(dims: seq<nat>, q: Quant) { Product(dims) * q.size < HALF }

  lemma NumBytesExact(dims: seq<nat>, q: Quant)
    requires NoWrap(dims, q)
    ensures NumBytes(dims, q) == Product(dims) * q.size / q.block >= 0
  {
    hide Product, Wrap64;
    var p := Product(dims);
    NotSmaller(p, q.size);
    Quotient(p * q.size, q.block);
  }

  lemma NotSmaller(p: nat, k: Pos)
    ensures p <= p * k
  {
    assert p * k == p + p * (k - 1);
  }

  lemma Quotient(a: int, b: Pos)
    ensures a >= 0 ==> 0 <= a / b <= a
    ensures a < 0 ==> a <= a / b < 0
  {
    var q, r := a / b, a % b;
    assert a == q * b + r;
    if a >= 0 {
      assert q >= 0 by { assert q < 0 ==> (q + 1) * b <= 0; }
      NotSmaller(q, b);
    } else {
      assert q < 0 by { assert q >= 0 ==> q * b >= 0; }
      NotSmaller(-q, b);
      NotLarger(q, a, b, r);
    }
  }

  lemma NotLarger(q: int, a: int, b: Pos, r: nat)
    requires a < 0 && q < 0 && a == q * b + r && r < b
    ensures a <= q
  {
    NotSmaller(-q - 1, b);
    assert (-q - 1) * b == -(q * b) - b;
  }

  function AlignUp(o: int): int { (o + 31) / 32 * 32 }

  lemma AlignUpIsLeast(o: int)
    ensures AlignUp(o) % 32 == 0 && o <= AlignUp(o)
    ensures forall a: int :: a % 32 == 0 && o <= a ==> AlignUp(o) <= a
  {
  }

  function HeaderEnd(o: int, dims: nat, name: nat): int { o + 12 + 4 * dims + name }

  function LoadTensor(data: seq<Byte>, o: int, quants: map<nat, Quant>, padded: bool): Outcome<(Tensor, int)> {
    match Reads32(data, o, 3)
    case None => Err(UnpackError)
    case Some(w) =>
      if w[0] > 4 || w[1] >= 4096 then Err(AssertionFailed)
      else if w[2] !in quants then Err(BadType)
      else
        var o' := o + 12;
        match Reads32(data, o', w[0])
        case None => Err(UnpackError)
        case Some(dims) =>
          var end := HeaderEnd(o, w[0], w[1]);
          var start := if padded then AlignUp(end) else end;
          var bytes := NumBytes(dims, quants[w[2]]);
          Ok((Tensor(Slice(data, end - w[1], end), dims, w[2], start, bytes), Wrap64(start + bytes)))
  }

  /** What is known of a tensor that was read. */
  lemma TensorFacts(data: seq<Byte>, o: int, quants: map<nat, Quant>, padded: bool)
    requires LoadTensor(data, o, quants, padded).Ok?
    ensures var r := LoadTensor(data, o, quants, padded).value;
            && r.0.dtype in quants && r.0.bytes == NumBytes(r.0.dims, quants[r.0.dtype]) && -HALF <= r.0.bytes < HALF
            && o + 12 <= r.0.start < o + 4155 && r.1 == Wrap64(r.0.start + r.0.bytes)
            && (padded ==> r.0.start % 32 == 0)
    ensures -|data| <= o
  {
    hide AlignUp, Unpack, Product;
    forall end: int ensures AlignUp(end) % 32 == 0 && end <= AlignUp(end) < end + 32 {
      AlignUpWithin(end);
    }
    var r := LoadTensor(data, o, quants, padded).value;
    Quotient(Wrap64(Wrap64(Product(r.0.dims)) * quants[r.0.dtype].size), quants[r.0.dtype].block);
    hide Wrap64, NumBytes;
  }

  lemma AlignUpWithin(o: int)
    ensures AlignUp(o) % 32 == 0 && o <= AlignUp(o) < o + 32
  {
  }

  /** A turn of the loop moves the cursor forward exactly when the size does not take it back to where
      it was or before, nor beyond what 64 bits hold. */
  lemma AdvancesExactly(data: seq<Byte>, o: int, quants: map<nat, Quant>, padded: bool)
    requires LoadTensor(data, o, quants, padded).Ok?
    ensures var (t, next) := LoadTensor(data, o, quants, padded).value;
            && (next > o <==> o < t.start + t.bytes < HALF || t.start + t.bytes < -HALF)
            && (o >= 0 ==> (next > o <==> o - t.start < NumBytes(t.dims, quants[t.dtype]) < HALF - t.start))
  {
    TensorFacts(data, o, quants, padded);
    var t := LoadTensor(data, o, quants, padded).value.0;
    hide LoadTensor, NumBytes;
    CursorAdvances(o, t.start, t.bytes);
  }

  lemma WrapOnce(x: int)
    ensures HALF <= x < 3 * HALF ==> Wrap64(x) == x - 2 * HALF
    ensures -3 * HALF <= x < -HALF ==> Wrap64(x) == x + 2 * HALF
  {
  }

  lemma CursorAdvances(o: int, start: int, bytes: int)
    requires o + 12 <= start < o + 4155 && -HALF <= bytes < HALF
    ensures Wrap64(start + bytes) > o <==> o < start + bytes < HALF || start + bytes < -HALF
  {
    WrapOnce(start + bytes);
    hide Wrap64;
  }

  // ----- the loop, turn by turn -----

  datatype Run = Running(ts: seq<Tensor>, o: int) | Ended(ts: seq<Tensor>, o: int) | Failed(error: Error)

  function After(ts: seq<Tensor>, r: Run): Run {
    match r
    case Running(us, o) => Running(ts + us, o)
    case Ended(us, o) => Ended(ts + us, o)
    case Failed(e) => Failed(e)
  }

  /** The loop after at most `k` turns. */
  function Turns(data: seq<Byte>, o: int, quants: map<nat, Quant>, padded: bool, k: nat): Run
    decreases k
  {
    if o >= |data| then Ended([], o)
    else if k == 0 then Running([], o)
    else match LoadTensor(data, o, quants, padded)
         case Err(e) => Failed(e)
         case Ok(one) => After([one.0], Turns(data, one.1, quants, padded, k - 1))
  }

  function Verdict(r: Run): Answer<(seq<Tensor>, int)> {
    match r
    case Running(_, _) => NeverReturns
    case Ended(ts, o) => Returns(Ok((ts, o)))
    case Failed(e) => Returns(Err(e))
  }

  /** A loop that is still running after this many turns has been at some cursor twice. */
  function Enough(data: seq<Byte>): nat { 2 * |data| + 1 }

  /** All tensors up to the end of the file. */
  function LoadTensors(data: seq<Byte>, o: int, quants: map<nat, Quant>, padded: bool): Answer<(seq<Tensor>, int)> {
    Verdict(Turns(data, o, quants, padded, Enough(data)))
  }

  lemma AfterAfter(a: seq<Tensor>, b: seq<Tensor>, r: Run)
    ensures After(a, After(b, r)) == After(a + b, r)
  {
    if !r.Failed? {
      assert a + (b + r.ts) == a + b + r.ts;
    }
  }

  lemma AfterNothing(r: Run)
    ensures After([], r) == r
  {
    if !r.Failed? {
      assert [] + r.ts == r.ts;
    }
  }

  lemma TurnsStep(data: seq<Byte>, o: int, quants: map<nat, Quant>, padded: bool, k: nat)
    ensures o >= |data| ==> Turns(data, o, quants, padded, k) == Ended([], o)
    ensures o < |data| && k == 0 ==> Turns(data, o, quants, padded, k) == Running([], o)
    ensures o < |data| && k > 0 ==>
              var one := LoadTensor(data, o, quants, padded);
              Turns(data, o, quants, padded, k) ==
              if one.Err? then Failed(one.error)
              else After([one.value.0], Turns(data, one.value.1, quants, padded, k - 1))
  {
    hide LoadTensor;
  }

  /** More turns go on from where fewer have led. */
  lemma {:induction false} TurnsAdd(data: seq<Byte>, o: int, quants: map<nat, Quant>, padded: bool, k: nat, m: nat)
    ensures var r := Turns(data, o, quants, padded, k);
            Turns(data, o, quants, padded, k + m) ==
            if r.Running? then After(r.ts, Turns(data, r.o, quants, padded, m)) else r
    decreases k
  {
    hide LoadTensor, After, Turns;
    TurnsStep(data, o, quants, padded, k);
    TurnsStep(data, o, quants, padded, k + m);
    if o < |data| {
      if k == 0 {
        AfterNothing(Turns(data, o, quants, padded, m));
      } else if LoadTensor(data, o, quants, padded).Ok? {
        var one := LoadTensor(data, o, quants, padded).value;
        var r := Turns(data, one.1, quants, padded, k - 1);
        TurnsAdd(data, one.1, quants, padded, k - 1, m);
        AfterIs([one.0], r);
        if r.Running? {
          AfterAfter([one.0], r.ts, Turns(data, r.o, quants, padded, m));
        }
      }
    }
  }

  lemma AfterIs(ts: seq<Tensor>, r: Run)
    ensures After(ts, r).Running? == r.Running?
    ensures r.Running? ==> After(ts, r) == Running(ts + r.ts, r.o)
    ensures r.Failed? ==> After(ts, r) == r
    ensures r.Ended? ==> After(ts, r) == Ended(ts + r.ts, r.o)
  {
  }

  predicate StillRunning(data: seq<Byte>, o: int, quants: map<nat, Quant>, padded: bool, k: nat) {
    Turns(data, o, quants, padded, k).Running?
  }

  lemma Earlier(data: seq<Byte>, o: int, quants: map<nat, Quant>, padded: bool, i: nat, k: nat)
    requires i <= k && StillRunning(data, o, quants, padded, k)
    ensures StillRunning(data, o, quants, padded, i)
  {
    hide Turns;
    TurnsAdd(data, o, quants, padded, i, k - i);
  }

  /** While the loop goes on, the cursor is a position of the file, counted from either end. */
  lemma CursorInFile(data: seq<Byte>, o: int, quants: map<nat, Quant>, padded: bool, i: nat, k: nat)
    requires i < k && StillRunning(data, o, quants, padded, k)
    ensures StillRunning(data, o, quants, padded, i)
    ensures -|data| <= Turns(data, o, quants, padded, i).o < |data|
  {
    hide Turns, LoadTensor;
    Earlier(data, o, quants, padded, i, k);
    TurnsAdd(data, o, quants, padded, i, k - i);
    var c := Turns(data, o, quants, padded, i).o;
    TurnsStep(data, c, quants, padded, k - i);
    AfterIs(Turns(data, o, quants, padded, i).ts, Turns(data, c, quants, padded, k - i));
    TensorFacts(data, c, quants, padded);
  }

  /** A loop that comes back to where it was never ends. */
  lemma {:induction false} RoundAndRound(data: seq<Byte>, c: int, quants: map<nat, Quant>, padded: bool, p: nat, m: nat)
    requires p > 0 && StillRunning(data, c, quants, padded, p) && Turns(data, c, quants, padded, p).o == c
    ensures StillRunning(data, c, quants, padded, m)
    decreases m
  {
    hide Turns;
    if m < p {
      Earlier(data, c, quants, padded, m, p);
    } else {
      RoundAndRound(data, c, quants, padded, p, m - p);
      TurnsAdd(data, c, quants, padded, p, m - p);
      AfterIs(Turns(data, c, quants, padded, p).ts, Turns(data, c, quants, padded, m - p));
    }
  }

  lemma ComesBack(data: seq<Byte>, o: int, quants: map<nat, Quant>, padded: bool, i: nat, j: nat, m: nat)
    requires i < j && StillRunning(data, o, quants, padded, i) && StillRunning(data, o, quants, padded, j)
    requires Turns(data, o, quants, padded, i).o == Turns(data, o, quants, padded, j).o
    ensures StillRunning(data, o, quants, padded, m)
  {
    hide Turns;
    var r := Turns(data, o, quants, padded, i);
    TurnsAdd(data, o, quants, padded, i, j - i);
    AfterIs(r.ts, Turns(data, r.o, quants, padded, j - i));
    RoundAndRound(data, r.o, quants, padded, j - i, m);
    TurnsAdd(data, o, quants, padded, i, m);
    AfterIs(r.ts, Turns(data, r.o, quants, padded, m));
    Earlier(data, o, quants, padded, m, i + m);
  }

  function Interval(lo: int, n: nat): (s: set<int>)
    ensures |s| == n && forall x :: x in s <==> lo <= x < lo + n
  {
    if n == 0 then {} else Interval(lo, n - 1) + {lo + n - 1}
  }

  lemma Pigeons(cs: seq<int>, lo: int, n: nat)
    requires forall i :: 0 <= i < |cs| ==> lo <= cs[i] < lo + n
    requires forall i, j :: 0 <= i < j < |cs| ==> cs[i] != cs[j]
    ensures |cs| <= n
  {
    Distinct(cs);
    SubsetSize((set c | c in cs), Interval(lo, n));
  }

  lemma {:induction false} Distinct(cs: seq<int>)
    requires forall i, j :: 0 <= i < j < |cs| ==> cs[i] != cs[j]
    ensures |set c | c in cs| == |cs|
  {
    if cs != [] {
      var init, last := cs[..|cs| - 1], cs[|cs| - 1];
      Distinct(init);
      assert (set c | c in cs) == (set c | c in init) + {last};
    }
  }

  lemma SubsetSize(s: set<int>, t: set<int>)
    requires s <= t
    ensures |s| <= |t|
  {
    assert t == s + (t - s);
  }

  /** The loop never ends exactly when it is still running after `Enough` turns. */
  lemma NeverEndsExactly(data: seq<Byte>, o: int, quants: map<nat, Quant>, padded: bool)
    ensures LoadTensors(data, o, quants, padded) == NeverReturns <==>
            forall k: nat :: StillRunning(data, o, quants, padded, k)
  {
    hide Turns;
    if StillRunning(data, o, quants, padded, Enough(data)) {
      var i, j := MeetsAgain(data, o, quants, padded);
      forall k: nat ensures StillRunning(data, o, quants, padded, k) {
        ComesBack(data, o, quants, padded, i, j, k);
      }
    } else {
      assert Verdict(Turns(data, o, quants, padded, Enough(data))) != NeverReturns;
    }
  }

  lemma MeetsAgain(data: seq<Byte>, o: int, quants: map<nat, Quant>, padded: bool) returns (i: nat, j: nat)
    requires StillRunning(data, o, quants, padded, Enough(data))
    ensures i < j && StillRunning(data, o, quants, padded, i) && StillRunning(data, o, quants, padded, j)
    ensures Turns(data, o, quants, padded, i).o == Turns(data, o, quants, padded, j).o
  {
    hide Turns;
    var n := Enough(data);
    forall i: nat | i < n
      ensures StillRunning(data, o, quants, padded, i) && -|data| <= Turns(data, o, quants, padded, i).o < |data|
    {
      CursorInFile(data, o, quants, padded, i, n);
    }
    var cs := seq(n, i requires 0 <= i < n => Turns(data, o, quants, padded, i).o);
    if forall a, b :: 0 <= a < b < n ==> cs[a] != cs[b] {
      Pigeons(cs, -|data|, 2 * |data|);
      assert false;
    }
    i, j :| 0 <= i < j < n && cs[i] == cs[j];
  }

  /** The cursor before turn `i`, of a loop that goes on. */
  function Cursor(data: seq<Byte>, o: int, quants: map<nat, Quant>, padded: bool, i: nat): int
    requires StillRunning(data, o, quants, padded, i)
  {
    Turns(data, o, quants, padded, i).o
  }

  predicate GoesBack(data: seq<Byte>, o: int, quants: map<nat, Quant>, padded: bool, i: nat) {
    && StillRunning(data, o, quants, padded, i) && StillRunning(data, o, quants, padded, i + 1)
    && Cursor(data, o, quants, padded, i + 1) <= Cursor(data, o, quants, padded, i)
  }

  lemma {:induction false} OnlyForward(data: seq<Byte>, o: int, quants: map<nat, Quant>, padded: bool, i: nat, j: nat)
    requires i < j && forall k: nat :: StillRunning(data, o, quants, padded, k)
    requires forall k: nat :: !GoesBack(data, o, quants, padded, k)
    ensures Cursor(data, o, quants, padded, i) < Cursor(data, o, quants, padded, j)
    decreases j
  {
    hide StillRunning, Cursor;
    assert !GoesBack(data, o, quants, padded, j - 1);
    if i < j - 1 {
      OnlyForward(data, o, quants, padded, i, j - 1);
    }
  }

  /** A loop that never ends takes the cursor back at some turn, so one in which every turn advances ends. */
  lemma NeverEndsGoesBack(data: seq<Byte>, o: int, quants: map<nat, Quant>, padded: bool)
    requires LoadTensors(data, o, quants, padded) == NeverReturns
    ensures exists k: nat :: GoesBack(data, o, quants, padded, k)
  {
    hide Turns;
    NeverEndsExactly(data, o, quants, padded);
    assert StillRunning(data, o, quants, padded, Enough(data));
    var i, j := MeetsAgain(data, o, quants, padded);
    if forall k: nat :: !GoesBack(data, o, quants, padded, k) {
      OnlyForward(data, o, quants, padded, i, j);
    }
  }

  /** If the loop ends at all, the answer is what it ends with, after however many turns. */
  lemma AnswerIs(data: seq<Byte>, o: int, quants: map<nat, Quant>, padded: bool, k: nat)
    requires !StillRunning(data, o, quants, padded, k)
    ensures LoadTensors(data, o, quants, padded) == Verdict(Turns(data, o, quants, padded, k))
  {
    hide Turns;
    NeverEndsExactly(data, o, quants, padded);
    var n := Enough(data);
    if k <= n {
      TurnsAdd(data, o, quants, padded, k, n - k);
    } else {
      TurnsAdd(data, o, quants, padded, n, k - n);
    }
  }

  /** A loop that goes on gives what the rest of it gives, behind the tensors it has. */
  lemma GoesOn(data: seq<Byte>, o: int, quants: map<nat, Quant>, padded: bool, k: nat)
    requires StillRunning(data, o, quants, padded, k)
    ensures var r := Turns(data, o, quants, padded, k);
            LoadTensors(data, o, quants, padded) ==
            match LoadTensors(data, r.o, quants, padded)
            case NeverReturns => NeverReturns
            case Returns(Err(e)) => Returns(Err(e))
            case Returns(Ok(rest)) => Returns(Ok((r.ts + rest.0, rest.1)))
  {
    hide Turns, Enough;
    var r, n := Turns(data, o, quants, padded, k), Enough(data);
    var rest := Turns(data, r.o, quants, padded, n);
    TurnsAdd(data, o, quants, padded, k, n);
    AfterIs(r.ts, rest);
    if rest.Running? {
      Earlier(data, o, quants, padded, n, k + n);
    } else {
      AnswerIs(data, o, quants, padded, k + n);
    }
  }

  /** The map holds, for each name, the index of the last tensor that has it. */
  predicate Maps(names: map<seq<Byte>, nat>, ts: seq<Tensor>) {
    && (forall k :: 0 <= k < |ts| ==> ts[k].name in names)
    && (forall n <- names :: && names[n] < |ts| && ts[names[n]].name == n
                             && forall k :: names[n] < k < |ts| ==> ts[k].name != n)
  }

  lemma MapsNext(names: map<seq<Byte>, nat>, ts: seq<Tensor>, t: Tensor)
    requires Maps(names, ts)
    ensures Maps(names[t.name := |ts|], ts + [t])
  {
  }

  lemma NothingMapped()
    ensures Maps(map[], [])
  {
  }

  /** The loop of the source. It is cut off after `Enough` turns, when it is known never to end. */
  method ReadTensors(data: seq<Byte>, origin: int, quants: map<nat, Quant>, padded: bool)
    returns (r: Answer<(seq<Tensor>, int)>, names: map<seq<Byte>, nat>)
    ensures r == LoadTensors(data, origin, quants, padded)
    ensures r == NeverReturns <==> forall k: nat :: StillRunning(data, origin, quants, padded, k)
    ensures r.Returns? && r.outcome.Ok? ==> Maps(names, r.outcome.value.0)
  {
    NeverEndsExactly(data, origin, quants, padded);
    hide Turns, LoadTensor, Maps, StillRunning;
    var ts, offset := [], origin;
    var turns := 0;
    names := map[];
    AfterNothing(Turns(data, origin, quants, padded, Enough(data)));
    NothingMapped();
    while offset < |data|
      invariant turns <= Enough(data) && Maps(names, ts)
      invariant Turns(data, origin, quants, padded, Enough(data)) ==
                After(ts, Turns(data, offset, quants, padded, Enough(data) - turns))
      decreases Enough(data) - turns
    {
      TurnsStep(data, offset, quants, padded, Enough(data) - turns);
      if turns == Enough(data) {
        return NeverReturns, names;
      }
      var one := LoadTensor(data, offset, quants, padded);
      if one.Err? {
        return Returns(Err(one.error)), names;
      }
      AfterAfter(ts, [one.value.0], Turns(data, one.value.1, quants, padded, Enough(data) - turns - 1));
      MapsNext(names, ts, one.value.0);
      names := names[one.value.0.name := |ts|];
      ts, offset := ts + [one.value.0], one.value.1;
      turns := turns + 1;
    }
    TurnsStep(data, offset, quants, padded, Enough(data) - turns);
    assert ts + [] == ts;
    r := Returns(Ok((ts, offset)));
  }

  // ----- data regions -----

  /** The tensors of a loop that ended: each starts behind its header, which begins where the cursor
      stood. A region lies between its start and the next one exactly when its size is not negative
      and its end fits in 64 bits. */
  lemma {:induction false} Regions(data: seq<Byte>, o: int, quants: map<nat, Quant>, padded: bool, k: nat, i: nat)
    requires Turns(data, o, quants, padded, k).Ended? && i < |Turns(data, o, quants, padded, k).ts|
    ensures var ts := Turns(data, o, quants, padded, k).ts;
            && ts[i].dtype in quants && ts[i].bytes == NumBytes(ts[i].dims, quants[ts[i].dtype])
            && (padded ==> ts[i].start % 32 == 0)
            && (i == 0 ==> o + 12 <= ts[0].start)
            && (i + 1 < |ts| ==> Wrap64(ts[i].start + ts[i].bytes) + 12 <= ts[i + 1].start)
            && (i + 1 < |ts| ==>
                  (ts[i].start <= ts[i].start + ts[i].bytes < ts[i + 1].start <==>
                   0 <= ts[i].bytes && ts[i].start + ts[i].bytes < HALF))
    decreases i
  {
    hide LoadTensor, NumBytes, Wrap64, Turns;
    TurnsStep(data, o, quants, padded, k);
    TensorFacts(data, o, quants, padded);
    var one := LoadTensor(data, o, quants, padded).value;
    var rest := Turns(data, one.1, quants, padded, k - 1);
    AfterIs([one.0], rest);
    if i > 0 {
      Regions(data, one.1, quants, padded, k - 1, i - 1);
    } else if rest.ts != [] {
      TurnsStep(data, one.1, quants, padded, k - 1);
      TensorFacts(data, one.1, quants, padded);
      AfterFirst(LoadTensor(data, one.1, quants, padded).value.0,
                 Turns(data, LoadTensor(data, one.1, quants, padded).value.1, quants, padded, k - 2));
      NextRegion(one.0.start, one.0.bytes, rest.ts[0].start);
    }
  }

  lemma AfterFirst(t: Tensor, r: Run)
    ensures After([t], r).Failed? || After([t], r).ts[0] == t
  {
  }

  lemma NextRegion(start: int, bytes: int, next: int)
    requires -HALF <= bytes < HALF && Wrap64(start + bytes) + 12 <= next < Wrap64(start + bytes) + 4155
    ensures start <= start + bytes < next <==> 0 <= bytes && start + bytes < HALF
  {
    WrapFar(start + bytes);
    hide Wrap64;
  }

  lemma WrapFar(x: int)
    ensures x >= HALF ==> Wrap64(x) <= x - 2 * HALF
  {
    var q := (x + HALF) / (2 * HALF);
    assert x + HALF == q * (2 * HALF) + (x + HALF) % (2 * HALF);
    assert x >= HALF ==> q >= 1;
  }

  /** All regions lie in file order, without overlap. */
  predicate InOrder(ts: seq<Tensor>) {
    forall i, j :: 0 <= i < j < |ts| ==> ts[i].start <= ts[i].start + ts[i].bytes < ts[j].start
  }

  /** The size is not negative, and the end fits in 64 bits. */
  predicate Sized(t: Tensor) { 0 <= t.bytes && t.start + t.bytes < HALF }

  lemma {:induction false} RegionBefore(data: seq<Byte>, o: int, quants: map<nat, Quant>, padded: bool,
                                        k: nat, i: nat, j: nat)
    requires Turns(data, o, quants, padded, k).Ended? && i < j < |Turns(data, o, quants, padded, k).ts|
    requires var ts := Turns(data, o, quants, padded, k).ts; forall m :: 0 <= m < |ts| - 1 ==> Sized(ts[m])
    ensures var ts := Turns(data, o, quants, padded, k).ts;
            ts[i].start <= ts[i].start + ts[i].bytes < ts[j].start
    decreases j
  {
    hide Turns, Wrap64, NumBytes;
    Regions(data, o, quants, padded, k, j - 1);
    assert Sized(Turns(data, o, quants, padded, k).ts[j - 1]);
    if i < j - 1 {
      RegionBefore(data, o, quants, padded, k, i, j - 1);
    }
  }

  /** The regions lie in file order without overlap exactly when no size wraps but perhaps the last. */
  lemma RegionsInOrder(data: seq<Byte>, o: int, quants: map<nat, Quant>, padded: bool, k: nat)
    requires Turns(data, o, quants, padded, k).Ended?
    ensures var ts := Turns(data, o, quants, padded, k).ts;
            InOrder(ts) <==> forall m :: 0 <= m < |ts| - 1 ==> Sized(ts[m])
  {
    hide Turns, Wrap64, NumBytes;
    var ts := Turns(data, o, quants, padded, k).ts;
    if InOrder(ts) {
      forall m | 0 <= m < |ts| - 1 ensures Sized(ts[m]) {
        Regions(data, o, quants, padded, k, m);
        assert ts[m].start <= ts[m].start + ts[m].bytes < ts[m + 1].start;
      }
    }
    if forall m :: 0 <= m < |ts| - 1 ==> Sized(ts[m]) {
      forall i, j | 0 <= i < j < |ts| ensures ts[i].start <= ts[i].start + ts[i].bytes < ts[j].start {
        RegionBefore(data, o, quants, padded, k, i, j);
      }
    }
  }

  // ----- inputs for which the loop goes wrong -----

  /** The header of a tensor of type 0 with two dimensions and a name of sixteen zero bytes. */
  function Tail(d0: nat, d1: nat): (t: seq<Byte>)
    requires d0 < U32 && d1 < U32
    ensures |t| == 36
  {
    Writes32([2, 16, 0]) + (Writes32([d0, d1]) + seq(16, _ => 0))
  }

  /** Type 0 has four bytes an element. */
  predicate PlainFloats(quants: map<nat, Quant>) {
    0 in quants && quants[0] == Quant(1, 4)
  }

  function Behind(o: int, padded: bool): int { if padded then AlignUp(o + 36) else o + 36 }

  lemma TailReads(data: seq<Byte>, o: nat, quants: map<nat, Quant>, padded: bool, d0: nat, d1: nat)
    requires d0 < U32 && d1 < U32 && At(data, o, Tail(d0, d1)) && PlainFloats(quants)
    ensures var size := NumBytes([d0, d1], Quant(1, 4));
            LoadTensor(data, o, quants, padded) ==
            Ok((Tensor(seq(16, _ => 0), [d0, d1], 0, Behind(o, padded), size), Wrap64(Behind(o, padded) + size)))
  {
    hide Wrap64, Reads32, Writes32, At, Slice, NumBytes, AlignUp;
    var name := seq(16, _ => 0 as Byte);
    assert Tail(d0, d1) == Writes32([2, 16, 0]) + (Writes32([d0, d1]) + name);
    AtSplit(data, o, Writes32([2, 16, 0]), Writes32([d0, d1]) + name);
    AtSplit(data, o + 12, Writes32([d0, d1]), name);
    ReadsAll(data, o, [2, 16, 0]);
    ReadsAll(data, o + 12, [d0, d1]);
    Clips(data, o + 20, name);
  }

  lemma ProductTwo(d0: nat, d1: nat)
    ensures Product([d0, d1]) == d0 * d1
  {
    assert [d0, d1][1..] == [d1] && [d1][1..] == [];
    assert Product([d1]) == d1 * Product([]) == d1 * 1 == d1;
    assert Product([d0, d1]) == d0 * Product([d1]);
  }

  lemma Unwrapped(x: int)
    requires -HALF <= x < HALF
    ensures Wrap64(x) == x
  {
  }

  /** If the size wraps to what takes the cursor back over the header, the loop never ends. */
  lemma NeverAdvances(data: seq<Byte>, o: nat, quants: map<nat, Quant>, padded: bool, d0: nat, d1: nat)
    requires d0 < U32 && d1 < U32 && At(data, o, Tail(d0, d1)) && PlainFloats(quants) && |data| < HALF
    requires NumBytes([d0, d1], Quant(1, 4)) == o - Behind(o, padded)
    ensures LoadTensor(data, o, quants, padded).Ok? && LoadTensor(data, o, quants, padded).value.1 == o
    ensures LoadTensors(data, o, quants, padded) == NeverReturns
  {
    TailReads(data, o, quants, padded, d0, d1);
    Unwrapped(o);
    assert o < |data|;
    hide Turns, LoadTensor, Tail, Wrap64, NumBytes, Behind, At;
    TurnsStep(data, o, quants, padded, 1);
    TurnsStep(data, o, quants, padded, 0);
    RoundAndRound(data, o, quants, padded, 1, Enough(data));
  }

  lemma TwoTensors(data: seq<Byte>, o: nat, quants: map<nat, Quant>, padded: bool, t0: Tensor, t1: Tensor, mid: int)
    requires o < |data| && mid < |data|
    requires LoadTensor(data, o, quants, padded) == Ok((t0, mid))
    requires LoadTensor(data, mid, quants, padded) == Ok((t1, |data|))
    ensures LoadTensors(data, o, quants, padded) == Returns(Ok(([t0, t1], |data|)))
  {
    hide Turns, LoadTensor;
    TurnsStep(data, o, quants, padded, 2);
    TurnsStep(data, mid, quants, padded, 1);
    TurnsStep(data, |data|, quants, padded, 0);
    assert Turns(data, mid, quants, padded, 1) == Ended([t1], |data|);
    assert [t0] + [t1] == [t0, t1];
    assert !StillRunning(data, o, quants, padded, 2);
    AnswerIs(data, o, quants, padded, 2);
  }

  /** If the size wraps to minus sixteen, a second tensor is read out of the name of the last, and its
      region starts before the other. */
  lemma RegionsCanGoBack(data: seq<Byte>, o: nat, quants: map<nat, Quant>, d0: nat, d1: nat)
    requires d0 < U32 && d1 < U32 && At(data, o, Tail(d0, d1)) && PlainFloats(quants) && |data| == o + 36 < HALF - 4
    requires NumBytes([d0, d1], Quant(1, 4)) == -16
    ensures LoadTensors(data, o, quants, false) ==
            Returns(Ok(([Tensor(seq(16, _ => 0), [d0, d1], 0, o + 36, -16), Tensor([], [], 0, o + 32, 4)], |data|)))
  {
    TailReads(data, o, quants, false, d0, d1);
    Unwrapped(o + 20);
    ZerosAtEnd(data, o, d0, d1);
    hide LoadTensor, LoadTensors, Tail, Wrap64, NumBytes, At;
    EmptyTensor(data, o + 20, quants);
    TwoTensors(data, o, quants, false, Tensor(seq(16, _ => 0), [d0, d1], 0, o + 36, -16),
               Tensor([], [], 0, o + 32, 4), o + 20);
  }

  /** There are such dimensions. */
  lemma WrappingSizes()
    ensures NumBytes([0x7FFF_FFFD, 0x8000_0003], Quant(1, 4)) == -36
    ensures NumBytes([0x7FFF_FFFE, 0x8000_0002], Quant(1, 4)) == -16
  {
    hide Product;
    ProductTwo(0x7FFF_FFFD, 0x8000_0003);
    ProductTwo(0x7FFF_FFFE, 0x8000_0002);
    WrapOnce(4 * (0x7FFF_FFFD * 0x8000_0003));
    WrapOnce(4 * (0x7FFF_FFFE * 0x8000_0002));
  }

  lemma ZerosAtEnd(data: seq<Byte>, o: nat, d0: nat, d1: nat)
    requires d0 < U32 && d1 < U32 && At(data, o, Tail(d0, d1))
    ensures forall i :: o + 20 <= i < o + 36 ==> data[i] == 0
  {
    hide Writes32;
    forall i | o + 20 <= i < o + 36 ensures data[i] == 0 {
      assert data[i] == data[o..o + 36][i - o] == Tail(d0, d1)[i - o];
    }
  }

  /** Twelve zero bytes are the header of a tensor without dimensions or name. */
  lemma EmptyTensor(data: seq<Byte>, o: nat, quants: map<nat, Quant>)
    requires o + 12 <= |data| < HALF - 4 && (forall i :: o <= i < o + 12 ==> data[i] == 0) && PlainFloats(quants)
    ensures LoadTensor(data, o, quants, false) == Ok((Tensor([], [], 0, o + 12, 4), o + 16))
  {
    var zeros := Slice(data, o, o + 12);
    hide Unpack;
    ZeroWords(zeros);
    assert Unpack(zeros) == [0, 0, 0];
    assert Reads32(data, o, 3) == Some([0, 0, 0]);
    NoWords(data, o + 12);
    assert Slice(data, o + 12, o + 12) == [];
    NumBytesExact([], Quant(1, 4));
    Unwrapped(o + 16);
    hide Reads32, Slice, NumBytes, Wrap64;
  }

  lemma NoWords(data: seq<Byte>, o: int)
    ensures Reads32(data, o, 0) == Some([])
  {
  }

  lemma UnpackStep(b: seq<Byte>)
    requires |b| >= 4
    ensures Unpack(b) == [Word(b[0], b[1], b[2], b[3])] + Unpack(b[4..])
  {
    hide Word;
  }

  lemma {:induction false} ZeroWords(zeros: seq<Byte>)
    requires forall i :: 0 <= i < |zeros| ==> zeros[i] == 0
    ensures forall i :: 0 <= i < |Unpack(zeros)| ==> Unpack(zeros)[i] == 0
  {
    hide Unpack;
    if |zeros| >= 4 {
      var words, rest := Unpack(zeros), Unpack(zeros[4..]);
      assert words == [0] + rest by {
        UnpackStep(zeros);
      }
      ZeroWords(zeros[4..]);
      forall i | 0 <= i < |words| ensures words[i] == 0 {
        assert i > 0 ==> words[i] == rest[i - 1];
      }
    }
  }
}
