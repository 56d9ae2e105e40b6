/** `permute`: a grammar that takes every given parser once, in any order. Parsers are read as
    languages; the prioritised choice of the PEG engine is not modelled. */
module Permute {

  /** Grammars over the given parsers, which are referred to by position. Rules are transparent. */
  datatype Parser =
    | Eps
    | Given(i: nat)
    | Then(first: Parser, second: Parser)
    | Choice(alternatives: seq<Parser>)

  type Language = iset<string>

  ghost predicate Accepts(p: Parser, langs: seq<Language>, w: string)
    decreases p
  {
    match p
    case Eps => w == ""
    case Given(i) => i < |langs| && w in langs[i]
    case Then(a, b) => exists k :: 0 <= k <= |w| && Accepts(a, langs, w[..k]) && Accepts(b, langs, w[k..])
    case Choice(alts) => exists j :: 0 <= j < |alts| && Accepts(alts[j], langs, w)
  }

  // ----- masks -----

  const MAX_PERMUTE: nat := 6

  /** The mask of the parsers still to come, as its bits; at most six, so the 32-bit word of
      the source never overflows. */
  type Mask = seq<bool>

  function Members(mask: Mask): set<nat> {
    set i: nat | i < |mask| && mask[i]
  }

  function Without(mask: Mask, i: nat): (r: Mask)
    requires i < |mask|
    ensures |r| == |mask|
  {
    mask[i := false]
  }

  lemma WithoutMembers(mask: Mask, i: nat)
    requires i < |mask| && mask[i]
    ensures Members(Without(mask, i)) == Members(mask) - {i}
    ensures |Members(Without(mask, i))| < |Members(mask)|
  {
    assert i in Members(mask);
    assert Members(Without(mask, i)) == Members(mask) - {i};
  }

  /** All `n` bits set. */
  function Full(n: nat): Mask { seq(n, _ => true) }

  predicate NoneLeft(mask: Mask) {
    forall i :: 0 <= i < |mask| ==> !mask[i]
  }

  lemma EmptyMask(mask: Mask)
    ensures NoneLeft(mask) <==> Members(mask) == {}
  {
    if !NoneLeft(mask) {
      var i :| 0 <= i < |mask| && mask[i];
      assert i in Members(mask);
    }
  }

  // ----- the grammar -----

  /** The plain recursion: some remaining parser, then the others in any order. */
  function Remaining(mask: Mask): Parser
    decreases |Members(mask)|, |mask| + 1
  {
    if NoneLeft(mask) then Eps else Choice(Alternatives(mask, |mask|))
  }

  /** The alternatives that begin with one of the first `upTo` parsers. */
  function Alternatives(mask: Mask, upTo: nat): seq<Parser>
    requires upTo <= |mask|
    decreases |Members(mask)|, upTo
  {
    if upTo == 0 then []
    else
      var i := upTo - 1;
      Alternatives(mask, i)
      + if mask[i] then
          WithoutMembers(mask, i);
          [Then(Given(i), Remaining(Without(mask, i)))]
        else []
  }

  function Sequence(n: nat): Parser {
    if n == 0 then Eps else if n == 1 then Given(0) else Then(Sequence(n - 1), Given(n - 1))
  }

  /** What `permute` builds for `n` parsers. */
  function Built(n: nat): Parser {
    if n == 0 then Eps
    else if n == 1 || n > MAX_PERMUTE then Sequence(n)
    else Remaining(Full(n))
  }

  ghost predicate MemoOk(memo: map<Mask, Parser>) {
    forall m :: m in memo ==> memo[m] == Remaining(m)
  }

  /** The memoised recursion: one rule for every mask that was met. */
  method RemainingOf(remaining: Mask, rules: map<Mask, Parser>) returns (p: Parser, rules': map<Mask, Parser>)
    requires MemoOk(rules)
    ensures p == Remaining(remaining)
    ensures MemoOk(rules') && rules.Keys <= rules'.Keys && (!NoneLeft(remaining) ==> remaining in rules')
    decreases |Members(remaining)|
  {
    hide Without, Members, Remaining, Alternatives;
    rules' := rules;
    if NoneLeft(remaining) {
      NothingRemains(remaining);
      return Eps, rules';
    }
    if remaining in rules' {
      return rules'[remaining], rules';
    }
    var alternatives: seq<Parser> := [];
    NoAlternatives(remaining);
    for i := 0 to |remaining|
      invariant alternatives == Alternatives(remaining, i)
      invariant MemoOk(rules') && rules.Keys <= rules'.Keys
    {
      AlternativesNext(remaining, i);
      if remaining[i] {
        WithoutMembers(remaining, i);
        var rest;
        rest, rules' := RemainingOf(Without(remaining, i), rules');
        alternatives := alternatives + [Then(Given(i), rest)];
      }
    }
    p := Choice(alternatives);
    RemainingIs(remaining);
    rules' := rules'[remaining := p];
  }

  lemma NothingRemains(mask: Mask)
    requires NoneLeft(mask)
    ensures Remaining(mask) == Eps
  {
  }

  lemma NoAlternatives(mask: Mask)
    ensures Alternatives(mask, 0) == []
  {
  }

  lemma AlternativesNext(mask: Mask, i: nat)
    requires i < |mask|
    ensures Alternatives(mask, i + 1)
            == Alternatives(mask, i) + if mask[i] then [Then(Given(i), Remaining(Without(mask, i)))] else []
  {
    hide Without, Remaining;
  }

  method Permute(n: nat) returns (p: Parser)
    ensures p == Built(n)
  {
    if n == 0 {
      return Eps;
    }
    if n == 1 || n > MAX_PERMUTE {
      return Sequence(n);
    }
    var rules;
    p, rules := RemainingOf(Full(n), map[]);
  }

  // ----- its language -----

  /** One word of each parser, in the given order. */
  ghost predicate InOrder(langs: seq<Language>, order: seq<nat>, w: string)
    decreases |order|
  {
    if order == [] then w == ""
    else exists k ::
        0 <= k <= |w| && order[0] < |langs| && w[..k] in langs[order[0]] && InOrder(langs, order[1..], w[k..])
  }

  predicate Arranges(order: seq<nat>, members: set<nat>) {
    && (forall i, j :: 0 <= i < j < |order| ==> order[i] != order[j])
    && (forall i :: 0 <= i < |order| ==> order[i] in members)
    && (forall x :: x in members ==> x in order)
  }

  ghost predicate AnyOrder(langs: seq<Language>, members: set<nat>, w: string) {
    exists order :: Arranges(order, members) && InOrder(langs, order, w)
  }

  lemma {:induction false} AlternativesHold(mask: Mask, upTo: nat, j: nat)
    requires upTo <= |mask| && j < |Alternatives(mask, upTo)|
    ensures exists i: nat ::
              i < upTo && mask[i] && Alternatives(mask, upTo)[j] == Then(Given(i), Remaining(Without(mask, i)))
    decreases upTo
  {
    hide Without;
    var i := upTo - 1;
    if j < |Alternatives(mask, i)| {
      AlternativesHold(mask, i, j);
    } else {
      assert mask[i];
    }
  }

  lemma {:induction false} AlternativeFor(mask: Mask, upTo: nat, i: nat)
    requires i < upTo <= |mask| && mask[i]
    ensures Then(Given(i), Remaining(Without(mask, i))) in Alternatives(mask, upTo)
    decreases upTo
  {
    hide Without;
    if i < upTo - 1 {
      AlternativeFor(mask, upTo - 1, i);
    }
  }

  lemma ArrangesCons(i: nat, order: seq<nat>, members: set<nat>)
    requires i in members && Arranges(order, members - {i})
    ensures Arranges([i] + order, members)
  {
    var o := [i] + order;
    forall x | x in members ensures x in o {
      if x != i {
        assert x in members - {i};
        assert x in order;
      } else {
        assert o[0] == i;
      }
    }
    forall a, b | 0 <= a < b < |o| ensures o[a] != o[b] {
      assert o[b] == order[b - 1];
      if a > 0 { assert o[a] == order[a - 1]; }
    }
    forall a | 0 <= a < |o| ensures o[a] in members {
      if a > 0 { assert o[a] == order[a - 1]; }
    }
  }

  lemma ArrangesTail(order: seq<nat>, members: set<nat>)
    requires order != [] && Arranges(order, members)
    ensures order[0] in members && Arranges(order[1..], members - {order[0]})
  {
    var o := order[1..];
    forall x | x in members - {order[0]} ensures x in o {
      var k :| 0 <= k < |order| && order[k] == x;
      assert o[k - 1] == x;
    }
    forall a | 0 <= a < |o| ensures o[a] in members - {order[0]} {
      assert o[a] == order[a + 1];
    }
    forall a, b | 0 <= a < b < |o| ensures o[a] != o[b] {
      assert o[a] == order[a + 1] && o[b] == order[b + 1];
    }
  }

  /** For every mask: the grammar accepts the arrangements of its members, and nothing else. */
  lemma {:induction false} RemainingLanguage(mask: Mask, langs: seq<Language>, w: string)
    requires |langs| == |mask|
    ensures Accepts(Remaining(mask), langs, w) <==> AnyOrder(langs, Members(mask), w)
    decreases |Members(mask)|
  {
    EmptyMask(mask);
    if NoneLeft(mask) {
      EmptyLanguage(langs, w);
    } else {
      if Accepts(Remaining(mask), langs, w) {
        RemainingSound(mask, langs, w);
      }
      if AnyOrder(langs, Members(mask), w) {
        RemainingComplete(mask, langs, w);
      }
    }
  }

  lemma Nothing(order: seq<nat>)
    requires Arranges(order, {})
    ensures order == []
  {
    if order != [] {
      ArrangedIn(order, {}, 0);
    }
  }

  lemma ArrangedIn(order: seq<nat>, members: set<nat>, i: nat)
    requires Arranges(order, members) && i < |order|
    ensures order[i] in members
  {
  }

  lemma EmptyLanguage(langs: seq<Language>, w: string)
    ensures AnyOrder(langs, {}, w) <==> w == ""
  {
    if AnyOrder(langs, {}, w) {
      var order :| Arranges(order, {}) && InOrder(langs, order, w);
      Nothing(order);
    }
    if w == "" {
      assert Arranges([], {}) && InOrder(langs, [], w);
    }
  }

  lemma RemainingSound(mask: Mask, langs: seq<Language>, w: string)
    requires |langs| == |mask| && !NoneLeft(mask)
    requires Accepts(Remaining(mask), langs, w)
    ensures AnyOrder(langs, Members(mask), w)
    decreases |Members(mask)|, 0
  {
    hide Without, Remaining;
    var alts := Alternatives(mask, |mask|);
    assert Remaining(mask) == Choice(alts) by { RemainingIs(mask); }
    var j :| 0 <= j < |alts| && Accepts(alts[j], langs, w);
    AlternativesHold(mask, |mask|, j);
    var i: nat :| i < |mask| && mask[i] && alts[j] == Then(Given(i), Remaining(Without(mask, i)));
    var rest := Remaining(Without(mask, i));
    var k :| 0 <= k <= |w| && Accepts(Given(i), langs, w[..k]) && Accepts(rest, langs, w[k..]);
    WithoutMembers(mask, i);
    RemainingLanguage(Without(mask, i), langs, w[k..]);
    var order :| Arranges(order, Members(mask) - {i}) && InOrder(langs, order, w[k..]);
    ArrangesCons(i, order, Members(mask));
    assert ([i] + order)[1..] == order;
    assert InOrder(langs, [i] + order, w);
  }

  lemma RemainingIs(mask: Mask)
    requires !NoneLeft(mask)
    ensures Remaining(mask) == Choice(Alternatives(mask, |mask|))
  {
  }

  lemma AcceptsAlternative(mask: Mask, langs: seq<Language>, w: string, i: nat, k: nat)
    requires |langs| == |mask| && !NoneLeft(mask) && i < |mask| && mask[i] && k <= |w|
    requires w[..k] in langs[i] && Accepts(Remaining(Without(mask, i)), langs, w[k..])
    ensures Accepts(Remaining(mask), langs, w)
  {
    hide Without, Remaining, Alternatives;
    AlternativeFor(mask, |mask|, i);
    var alt := Then(Given(i), Remaining(Without(mask, i)));
    assert Accepts(Given(i), langs, w[..k]);
    assert Accepts(alt, langs, w);
    RemainingIs(mask);
    var j :| 0 <= j < |Alternatives(mask, |mask|)| && Alternatives(mask, |mask|)[j] == alt;
  }

  lemma RemainingComplete(mask: Mask, langs: seq<Language>, w: string)
    requires |langs| == |mask| && !NoneLeft(mask)
    requires AnyOrder(langs, Members(mask), w)
    ensures Accepts(Remaining(mask), langs, w)
    decreases |Members(mask)|, 0
  {
    EmptyMask(mask);
    hide Without, Remaining;
    var order :| Arranges(order, Members(mask)) && InOrder(langs, order, w);
    assert order != [] by {
      var x :| x in Members(mask);
      assert x in order;
    }
    var i := order[0];
    ArrangesTail(order, Members(mask));
    var k :| 0 <= k <= |w| && w[..k] in langs[i] && InOrder(langs, order[1..], w[k..]);
    WithoutMembers(mask, i);
    assert AnyOrder(langs, Members(Without(mask, i)), w[k..]);
    RemainingLanguage(Without(mask, i), langs, w[k..]);
    AcceptsAlternative(mask, langs, w, i, k);
  }

  function UpTo(n: nat): (s: seq<nat>)
    ensures |s| == n && forall i :: 0 <= i < n ==> s[i] == i
  {
    if n == 0 then [] else UpTo(n - 1) + [n - 1]
  }

  function All(n: nat): (s: set<nat>)
    ensures forall x :: x in s <==> 0 <= x < n
  {
    forall x: nat | x < n ensures x in UpTo(n) {
      assert UpTo(n)[x] == x;
    }
    set x | x in UpTo(n)
  }

  lemma {:induction false} InOrderSnoc(langs: seq<Language>, order: seq<nat>, x: nat, w: string)
    requires x < |langs|
    ensures InOrder(langs, order + [x], w) <==>
            exists k :: 0 <= k <= |w| && InOrder(langs, order, w[..k]) && w[k..] in langs[x]
    decreases |order|
  {
    if order == [] {
      assert order + [x] == [x] && [x][1..] == [];
      if InOrder(langs, [x], w) {
        var k :| 0 <= k <= |w| && w[..k] in langs[x] && InOrder(langs, [x][1..], w[k..]);
        assert w[..k] == w == w[0..];
        assert InOrder(langs, order, w[..0]);
      }
      if exists k :: 0 <= k <= |w| && InOrder(langs, order, w[..k]) && w[k..] in langs[x] {
        var k :| 0 <= k <= |w| && InOrder(langs, order, w[..k]) && w[k..] in langs[x];
        assert w[k..] == w == w[..|w|];
        assert InOrder(langs, [x][1..], w[|w|..]);
      }
    } else {
      assert (order + [x])[1..] == order[1..] + [x];
      if InOrder(langs, order + [x], w) {
        var k :| 0 <= k <= |w| && order[0] < |langs| && w[..k] in langs[order[0]]
                 && InOrder(langs, order[1..] + [x], w[k..]);
        InOrderSnoc(langs, order[1..], x, w[k..]);
        var h :| 0 <= h <= |w[k..]| && InOrder(langs, order[1..], w[k..][..h]) && w[k..][h..] in langs[x];
        assert w[..k + h][..k] == w[..k] && w[..k + h][k..] == w[k..][..h] && w[k..][h..] == w[k + h..];
        assert InOrder(langs, order, w[..k + h]);
      }
      if exists k :: 0 <= k <= |w| && InOrder(langs, order, w[..k]) && w[k..] in langs[x] {
        var h :| 0 <= h <= |w| && InOrder(langs, order, w[..h]) && w[h..] in langs[x];
        var k :| 0 <= k <= |w[..h]| && order[0] < |langs| && w[..h][..k] in langs[order[0]]
                 && InOrder(langs, order[1..], w[..h][k..]);
        assert w[..h][..k] == w[..k] && w[..h][k..] == w[k..][..h - k] && w[k..][h - k..] == w[h..];
        InOrderSnoc(langs, order[1..], x, w[k..]);
        assert InOrder(langs, order[1..] + [x], w[k..]);
      }
    }
  }

  /** Beyond the limit, and for a single parser, only the given order is accepted. */
  lemma {:induction false} SequenceLanguage(n: nat, langs: seq<Language>, w: string)
    requires n <= |langs|
    ensures Accepts(Sequence(n), langs, w) <==> InOrder(langs, UpTo(n), w)
    decreases n
  {
    if n == 0 {
    } else {
      InOrderSnoc(langs, UpTo(n - 1), n - 1, w);
      if n == 1 {
        OneGiven(langs, w);
      } else {
        forall k | 0 <= k <= |w|
          ensures Accepts(Sequence(n - 1), langs, w[..k]) <==> InOrder(langs, UpTo(n - 1), w[..k])
        {
          SequenceLanguage(n - 1, langs, w[..k]);
        }
        assert Sequence(n) == Then(Sequence(n - 1), Given(n - 1));
      }
    }
  }

  lemma OneGiven(langs: seq<Language>, w: string)
    requires |langs| > 0
    ensures (exists k :: 0 <= k <= |w| && InOrder(langs, UpTo(0), w[..k]) && w[k..] in langs[0]) <==> w in langs[0]
  {
    assert w[0..] == w;
    if w in langs[0] {
      assert InOrder(langs, UpTo(0), w[..0]) && w[0..] in langs[0];
    }
  }

  /** For every list of up to six parsers: exactly the concatenations of one word of each, in
      some order. */
  lemma PermuteLanguage(langs: seq<Language>, w: string)
    requires |langs| <= MAX_PERMUTE
    ensures Accepts(Built(|langs|), langs, w) <==> AnyOrder(langs, All(|langs|), w)
  {
    var n := |langs|;
    if n == 0 {
      EmptyLanguage(langs, w);
      assert All(0) == {};
    } else if n == 1 {
      SequenceLanguage(1, langs, w);
      OneArrangement(langs, w);
    } else {
      assert Members(Full(n)) == All(n);
      RemainingLanguage(Full(n), langs, w);
    }
  }

  lemma AtMostOne(order: seq<nat>)
    requires Arranges(order, All(1))
    ensures order == UpTo(1)
  {
    assert 0 in All(1);
    if |order| > 1 {
      ArrangedIn(order, All(1), 0);
      ArrangedIn(order, All(1), 1);
    } else {
      ArrangedIn(order, All(1), 0);
    }
  }

  lemma OneArrangement(langs: seq<Language>, w: string)
    requires |langs| == 1
    ensures AnyOrder(langs, All(1), w) <==> InOrder(langs, UpTo(1), w)
  {
    assert Arranges(UpTo(1), All(1));
    if AnyOrder(langs, All(1), w) {
      var order :| Arranges(order, All(1)) && InOrder(langs, order, w);
      AtMostOne(order);
    }
  }

  // ----- the limit matters -----

  /** The first parser takes "a", every other one takes "b". */
  function Witness(n: nat): (langs: seq<Language>)
    ensures |langs| == n && forall i :: 0 <= i < n ==> langs[i] == if i == 0 then iset{"a"} else iset{"b"}
  {
    seq(n, i => if i == 0 then iset{"a"} else iset{"b"})
  }

  function Word(order: seq<nat>): string {
    if order == [] then "" else (if order[0] == 0 then "a" else "b") + Word(order[1..])
  }

  lemma {:induction false} WordInOrder(n: nat, order: seq<nat>)
    requires forall i :: 0 <= i < |order| ==> order[i] < n
    ensures InOrder(Witness(n), order, Word(order))
  {
    if order != [] {
      WordInOrder(n, order[1..]);
      var w := Word(order);
      assert w[..1] == (if order[0] == 0 then "a" else "b") && w[1..] == Word(order[1..]);
    }
  }

  lemma StartsWithA(n: nat, w: string)
    requires n > 0 && InOrder(Witness(n), UpTo(n), w)
    ensures w != "" && w[0] == 'a'
  {
    var k :| 0 <= k <= |w| && w[..k] in Witness(n)[0] && InOrder(Witness(n), UpTo(n)[1..], w[k..]);
    assert w[..k] == "a";
    assert w[..k][0] == 'a';
  }

  /** "Any order" holds for all parsers exactly up to the limit; beyond it the grammar insists
      on the given order. */
  lemma AnyOrderExactly(n: nat)
    ensures (forall langs: seq<Language>, w: string :: |langs| == n ==>
               (Accepts(Built(n), langs, w) <==> AnyOrder(langs, All(n), w)))
            <==> n <= MAX_PERMUTE
  {
    if n <= MAX_PERMUTE {
      forall langs: seq<Language>, w: string | |langs| == n
        ensures Accepts(Built(n), langs, w) <==> AnyOrder(langs, All(n), w)
      {
        PermuteLanguage(langs, w);
      }
    } else {
      var langs := Witness(n);
      var order := [1, 0] + UpTo(n)[2..];
      var w := Word(order);
      SwappedArranges(n, order);
      WordInOrder(n, order);
      SequenceLanguage(n, langs, w);
      assert w[0] == 'b';
      if InOrder(langs, UpTo(n), w) {
        StartsWithA(n, w);
      }
      assert AnyOrder(langs, All(n), w) && !Accepts(Built(n), langs, w);
    }
  }

  lemma SwappedArranges(n: nat, order: seq<nat>)
    requires n >= 2 && order == [1, 0] + UpTo(n)[2..]
    ensures Arranges(order, All(n))
  {
    assert forall i :: 2 <= i < n ==> order[i] == i;
    forall x | x in All(n) ensures x in order {
      assert order[if x == 0 then 1 else if x == 1 then 0 else x] == x;
    }
  }
}
