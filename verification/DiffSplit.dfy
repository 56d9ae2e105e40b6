/** The two-ended segment diff of two template outputs: what it returns and when that adds up. */
module DiffSplit {
  import opened JsonText
  import opened Segments
  import opened DiffLoop

  // The code walks four indices inwards and then finishes in one of several tail cases; in some of
  // them it can read a segment a second time. `JoinsExactly` says for which inputs the four parts
  // still add up to both outputs.

  datatype Split = Split(prefix: string, suffix: string, left: string, right: string)

  predicate Joins(d: Split, left: string, right: string) {
    d.prefix + d.left + d.suffix == left && d.prefix + d.right + d.suffix == right
  }

  // ----- common ends of two strings -----

  /** The first `n` characters agree. */
  predicate AgreeFront(a: string, b: string, n: nat) {
    n <= |a| && n <= |b| && forall k :: 0 <= k < n ==> a[k] == b[k]
  }

  function FromBack(s: string, k: nat): char
    requires k < |s|
  {
    s[|s| - 1 - k]
  }

  /** The last `n` characters agree. */
  predicate AgreeBack(a: string, b: string, n: nat) {
    n <= |a| && n <= |b| && forall k :: 0 <= k < n ==> FromBack(a, k) == FromBack(b, k)
  }

  function PrefixLen(a: string, b: string, from: nat := 0): (n: nat)
    requires AgreeFront(a, b, from)
    ensures n <= |a| && n <= |b| && AgreeFront(a, b, n) && !AgreeFront(a, b, n + 1)
    decreases |a| - from
  {
    if from < |a| && from < |b| && a[from] == b[from] then PrefixLen(a, b, from + 1) else from
  }

  function SuffixLen(a: string, b: string, from: nat := 0): (n: nat)
    requires AgreeBack(a, b, from)
    ensures n <= |a| && n <= |b| && AgreeBack(a, b, n) && !AgreeBack(a, b, n + 1)
    decreases |a| - from
  {
    if from < |a| && from < |b| && FromBack(a, from) == FromBack(b, from) then SuffixLen(a, b, from + 1) else from
  }

  lemma AgreeingFronts(a: string, b: string, n: nat)
    requires AgreeFront(a, b, n)
    ensures a[..n] == b[..n]
  {
  }

  lemma AgreeingBacks(a: string, b: string, n: nat)
    requires AgreeBack(a, b, n)
    ensures a[|a| - n..] == b[|b| - n..]
  {
    var x, y := a[|a| - n..], b[|b| - n..];
    forall k | 0 <= k < n ensures x[k] == y[k] {
      assert FromBack(a, n - 1 - k) == FromBack(b, n - 1 - k);
    }
  }

  method CommonPrefixLen(a: string, b: string) returns (n: nat)
    ensures AgreeFront(a, b, 0) && n == PrefixLen(a, b)
    ensures n <= |a| && n <= |b| && AgreeFront(a, b, n) && !AgreeFront(a, b, n + 1)
  {
    n := 0;
    var least := if |a| < |b| then |a| else |b|;
    while n < least && a[n] == b[n]
      invariant n <= least && AgreeFront(a, b, n)
      invariant PrefixLen(a, b, n) == PrefixLen(a, b)
    {
      n := n + 1;
    }
  }

  method CommonSuffixLen(a: string, b: string) returns (n: nat)
    ensures AgreeBack(a, b, 0) && n == SuffixLen(a, b)
    ensures n <= |a| && n <= |b| && AgreeBack(a, b, n) && !AgreeBack(a, b, n + 1)
  {
    n := 0;
    var least := if |a| < |b| then |a| else |b|;
    while n < least && FromBack(a, n) == FromBack(b, n)
      invariant n <= least && AgreeBack(a, b, n)
      invariant SuffixLen(a, b, n) == SuffixLen(a, b)
    {
      n := n + 1;
    }
  }

  // ----- the differing parts -----

  function Refine(prefix: string, suffix: string, left: string, right: string,
                  textPrefix: bool, textSuffix: bool): Split {
    var s := if textSuffix then SuffixLen(left, right) else 0;
    var p := if textPrefix then PrefixLen(left[..|left| - s], right[..|right| - s]) else 0;
    Split(prefix + left[..p], left[|left| - s..] + suffix, left[p..|left| - s], right[p..|right| - s])
  }

  function Settle(left: string, right: string, d: Split): Split {
    var d' := if d.left == "" && d.right == "" then d.(prefix := left, suffix := "") else d;
    if d'.left == "" && d'.right != "" && left <= right then
      d'.(prefix := left, suffix := "", right := right[|left|..])
    else d'
  }

  function Parts(l: seq<Segment>, r: seq<Segment>, e: Ends): Split
    requires InRange(l, r, e)
  {
    Refine(e.prefix, e.suffix, Flat(Unmatched(l, e.ls, e.le, e.lDone)), Flat(Unmatched(r, e.rs, e.re, e.rDone)),
           r[e.rs].kind == Text && l[e.ls].kind == Text, l[e.le].kind == Text && r[e.re].kind == Text)
  }

  function Calculate(left: string, right: string): Split {
    var l, r := Cut(left), Cut(right);
    if l == [] then Split("", "", "", right)
    else if r == [] then Split("", "", left, "")
    else Settle(left, right, Parts(l, r, Tail(l, r, Meet(l, r, Start(l, r)))))
  }

  // ----- putting the parts together -----

  lemma RefineJoins(prefix: string, suffix: string, left: string, right: string, textPrefix: bool, textSuffix: bool)
    ensures Joins(Refine(prefix, suffix, left, right, textPrefix, textSuffix),
                  prefix + left + suffix, prefix + right + suffix)
  {
    hide AgreeFront, AgreeBack;
    Agree0(left, right);
    var s := if textSuffix then SuffixLen(left, right) else 0;
    AgreeingBacks(left, right, s);
    var left', right' := left[..|left| - s], right[..|right| - s];
    Agree0(left', right');
    var p := if textPrefix then PrefixLen(left', right') else 0;
    AgreeingFronts(left', right', p);
    RefineCuts(prefix, suffix, left, right, p, s);
  }

  lemma Agree0(a: string, b: string)
    ensures AgreeFront(a, b, 0) && AgreeBack(a, b, 0)
  {
  }

  lemma RefineCuts(prefix: string, suffix: string, left: string, right: string, p: nat, s: nat)
    requires p + s <= |left| && p + s <= |right|
    requires left[|left| - s..] == right[|right| - s..] && left[..|left| - s][..p] == right[..|right| - s][..p]
    ensures Joins(Split(prefix + left[..p], left[|left| - s..] + suffix, left[p..|left| - s], right[p..|right| - s]),
                  prefix + left + suffix, prefix + right + suffix)
  {
    assert left[..|left| - s][..p] == left[..p] && right[..|right| - s][..p] == right[..p];
    Rejoin(prefix, suffix, left, p, |left| - s);
    Rejoin(prefix, suffix, right, p, |right| - s);
  }

  lemma Rejoin(prefix: string, suffix: string, t: string, p: nat, q: nat)
    requires p <= q <= |t|
    ensures prefix + t[..p] + t[p..q] + (t[q..] + suffix) == prefix + t + suffix
  {
    var a, b, c := t[..p], t[p..q], t[q..];
    assert t == a + b + c;
    Assoc(prefix, a, b);
    Assoc(prefix + (a + b), c, suffix);
    Assoc(prefix, a + b, c);
  }

  lemma SettleJoins(left: string, right: string, d: Split)
    requires Joins(d, left, right)
    ensures Joins(Settle(left, right, d), left, right)
  {
    if d.left == "" && d.right == "" {
      assert left == right;
    }
  }

  lemma PartsJoin(l: seq<Segment>, r: seq<Segment>, e: Ends)
    requires BothKept(l, r, e)
    ensures Joins(Settle(Flat(l), Flat(r), Parts(l, r, e)), Flat(l), Flat(r))
  {
    hide Flat, Settle, Refine;
    RefineJoins(e.prefix, e.suffix, Flat(Unmatched(l, e.ls, e.le, e.lDone)), Flat(Unmatched(r, e.rs, e.re, e.rDone)),
                r[e.rs].kind == Text && l[e.ls].kind == Text, l[e.le].kind == Text && r[e.re].kind == Text);
    SettleJoins(Flat(l), Flat(r), Parts(l, r, e));
  }

  /** Nothing is refined when one side is used up. */
  lemma RefineNothing(prefix: string, suffix: string, left: string, right: string, textPrefix: bool, textSuffix: bool)
    requires left == "" || right == ""
    ensures Refine(prefix, suffix, left, right, textPrefix, textSuffix) == Split(prefix, suffix, left, right)
  {
    assert left[..0] == "" && prefix + "" == prefix && left[|left|..] == "" && "" + suffix == suffix;
  }

  lemma {:induction false} NonEmptyValues(segs: seq<Segment>, i: nat)
    requires WellCut(segs) && i < |segs|
    ensures segs[i].value != ""
  {
    if i > 0 {
      NonEmptyValues(segs[1..], i - 1);
    }
  }

  lemma NonEmptyFlat(segs: seq<Segment>, from: nat, to: nat)
    requires WellCut(segs) && from <= to < |segs|
    ensures Flat(Unmatched(segs, from, to, false)) != ""
  {
    NonEmptyValues(segs, from);
    var u := segs[from..to + 1];
    assert u[0] == segs[from];
    assert Flat(u) == u[0].value + Flat(u[1..]);
  }

  // ----- the failing family -----

  /** After the loop has used up `a`, the tail matches the last segment it took once more. */
  predicate DoubleRead(a: seq<Segment>, b: seq<Segment>) {
    && Halves(a, b)
    && var h := |a| / 2;
       if |b| == |a| + 1 then a[h] == b[h] && a[h].kind == Marker
       else a[h] == b[h] || a[h] == b[|b| - 1 - h]
  }

  predicate Rereads(left: string, right: string) {
    var l, r := Cut(left), Cut(right);
    (DoubleRead(l, r) && (|r| == |l| + 1 || !(left <= right))) || DoubleRead(r, l)
  }

  /** What the tail does with a segment it has already used. */
  lemma TailRereadsLeft(l: seq<Segment>, r: seq<Segment>, m: Ends)
    requires InRange(l, r, m) && Stopped(l, r, m) && m.lDone && !m.rDone
    ensures var t := Tail(l, r, m);
            && t.lDone && t.ls == t.le
            && (!DoubleRead(l, r) ==> t == m)
            && (DoubleRead(l, r) ==> |t.prefix| + |t.suffix| == |m.prefix| + |m.suffix| + |l[m.ls].value|)
            && (DoubleRead(l, r) ==> t.rDone == (|r| == |l| + 1) && (t.rDone ==> t.rs == t.re))
  {
  }

  lemma TailRereadsRight(l: seq<Segment>, r: seq<Segment>, m: Ends)
    requires InRange(l, r, m) && Stopped(l, r, m) && m.rDone && !m.lDone
    ensures var t := Tail(l, r, m);
            && t.rDone && t.rs == t.re
            && (!DoubleRead(r, l) ==> t == m)
            && (DoubleRead(r, l) ==> |t.prefix| + |t.suffix| == |m.prefix| + |m.suffix| + |r[m.rs].value|)
            && (DoubleRead(r, l) ==> t.lDone == (|l| == |r| + 1) && (t.lDone ==> t.ls == t.le))
  {
  }

  lemma SettleNothing(left: string, right: string, d: Split)
    requires d.left == "" && d.right == ""
    ensures Settle(left, right, d) == Split(left, "", "", "")
  {
  }

  lemma SettleRepairs(left: string, right: string, d: Split)
    requires d.left == "" && d.right != "" && |d.prefix| + |d.suffix| > |left| && |left| < |right|
    ensures Settle(left, right, d).right != "" && (Joins(Settle(left, right, d), left, right) <==> left <= right)
  {
    if left <= right {
      assert left + "" + "" == left && left + right[|left|..] + "" == right;
    }
  }

  lemma SettleBroken(left: string, right: string, d: Split)
    requires d.left != "" && d.right == "" && |d.prefix| + |d.suffix| > |right|
    ensures Settle(left, right, d) == d && !Joins(d, left, right)
  {
  }

  /** One side used up, the other not: the other text is longer. */
  lemma OneSideLeft(s: seq<Segment>, u: seq<Segment>, e: Ends, i: nat, from: nat, to: nat)
    requires WellCut(u) && Kept(s, e, i, i, true) && Kept(u, e, from, to, false)
    ensures |e.prefix| + |e.suffix| == |Flat(s)| < |Flat(u)|
  {
    hide WellCut, Flat;
    UnmatchedNothing(s, i);
    NonEmptyFlat(u, from, to);
  }

  lemma UnmatchedNothing(s: seq<Segment>, i: nat)
    requires i < |s|
    ensures Flat(Unmatched(s, i, i, true)) == ""
  {
  }

  lemma LeftUsedUp(l: seq<Segment>, r: seq<Segment>, m: Ends)
    requires WellCut(l) && WellCut(r)
    requires BothKept(l, r, m) && Stopped(l, r, m) && m.lDone && !m.rDone
    ensures !DoubleRead(l, r) ==> BothKept(l, r, Tail(l, r, m))
    ensures DoubleRead(l, r) ==>
              var d := Settle(Flat(l), Flat(r), Parts(l, r, Tail(l, r, m)));
              if |r| == |l| + 1 then d == Split(Flat(l), "", "", "") && Flat(l) != Flat(r)
              else d.right != "" && (Joins(d, Flat(l), Flat(r)) <==> Flat(l) <= Flat(r))
  {
    Flags(l, r, m);
    OneSideLeft(l, r, m, m.ls, m.rs, m.re);
    TailRereadsLeft(l, r, m);
    NonEmptyValues(l, m.ls);
    var t := Tail(l, r, m);
    UnmatchedNothing(l, t.ls);
    hide Flat, WellCut, Refine, Tail, DoubleRead, Stopped, Kept, Settle, Unmatched, Joins;
    if DoubleRead(l, r) {
      var rest := Flat(Unmatched(r, t.rs, t.re, t.rDone));
      RefineNothing(t.prefix, t.suffix, "", rest,
                    r[t.rs].kind == Text && l[t.ls].kind == Text, l[t.le].kind == Text && r[t.re].kind == Text);
      if |r| == |l| + 1 {
        UnmatchedNothing(r, t.rs);
        SettleNothing(Flat(l), Flat(r), Parts(l, r, t));
      } else {
        NonEmptyFlat(r, t.rs, t.re);
        SettleRepairs(Flat(l), Flat(r), Parts(l, r, t));
      }
    }
  }

  lemma RightUsedUp(l: seq<Segment>, r: seq<Segment>, m: Ends)
    requires WellCut(l) && WellCut(r)
    requires BothKept(l, r, m) && Stopped(l, r, m) && m.rDone && !m.lDone
    ensures !DoubleRead(r, l) ==> BothKept(l, r, Tail(l, r, m))
    ensures DoubleRead(r, l) ==>
              var d := Settle(Flat(l), Flat(r), Parts(l, r, Tail(l, r, m)));
              if |l| == |r| + 1 then d == Split(Flat(l), "", "", "") && Flat(l) != Flat(r)
              else d.left != "" && !Joins(d, Flat(l), Flat(r))
  {
    Flags(l, r, m);
    OneSideLeft(r, l, m, m.rs, m.ls, m.le);
    TailRereadsRight(l, r, m);
    NonEmptyValues(r, m.rs);
    var t := Tail(l, r, m);
    UnmatchedNothing(r, t.rs);
    hide Flat, WellCut, Refine, Tail, DoubleRead, Stopped, Kept, Settle, Unmatched, Joins;
    if DoubleRead(r, l) {
      var rest := Flat(Unmatched(l, t.ls, t.le, t.lDone));
      RefineNothing(t.prefix, t.suffix, rest, "",
                    r[t.rs].kind == Text && l[t.ls].kind == Text, l[t.le].kind == Text && r[t.re].kind == Text);
      if |l| == |r| + 1 {
        UnmatchedNothing(l, t.ls);
        SettleNothing(Flat(l), Flat(r), Parts(l, r, t));
      } else {
        NonEmptyFlat(l, t.ls, t.le);
        SettleBroken(Flat(l), Flat(r), Parts(l, r, t));
      }
    }
  }

  lemma KeptDone(s: seq<Segment>, e: Ends, i: nat)
    requires Kept(s, e, i, i, true)
    ensures Flat(s) == e.prefix + e.suffix
  {
    UnmatchedNothing(s, i);
    assert e.prefix + "" == e.prefix;
  }

  /** Both used up: the tail may read a segment again, but the two inputs are equal. */
  lemma BothUsedUp(l: seq<Segment>, r: seq<Segment>, m: Ends)
    requires BothKept(l, r, m) && m.lDone && m.rDone
    ensures Flat(l) == Flat(r)
    ensures Settle(Flat(l), Flat(r), Parts(l, r, Tail(l, r, m))) == Split(Flat(l), "", "", "")
  {
    var t := Tail(l, r, m);
    Flags(l, r, m);
    hide Kept, Flat, Refine, Settle, Unmatched;
    KeptDone(l, m, m.ls);
    KeptDone(r, m, m.rs);
    assert t.ls == t.le == m.ls && t.rs == t.re == m.rs && t.lDone && t.rDone;
    hide Tail;
    NoParts(l, r, t);
    SettleNothing(Flat(l), Flat(r), Parts(l, r, t));
  }

  lemma NoParts(l: seq<Segment>, r: seq<Segment>, t: Ends)
    requires InRange(l, r, t) && t.lDone && t.rDone && t.ls == t.le && t.rs == t.re
    ensures Parts(l, r, t).left == "" && Parts(l, r, t).right == ""
  {
    hide Flat, Refine, Unmatched;
    UnmatchedNothing(l, t.ls);
    UnmatchedNothing(r, t.rs);
    RefineNothing(t.prefix, t.suffix, "", "",
                  r[t.rs].kind == Text && l[t.ls].kind == Text, l[t.le].kind == Text && r[t.re].kind == Text);
  }

  // ----- the theorems -----

  function LoopEnd(left: string, right: string): (m: Ends)
    requires left != "" && right != ""
    ensures InRange(Cut(left), Cut(right), m)
  {
    Meet(Cut(left), Cut(right), Start(Cut(left), Cut(right)))
  }

  lemma LoopEndFacts(left: string, right: string)
    requires left != "" && right != ""
    ensures var l, r, m := Cut(left), Cut(right), LoopEnd(left, right);
            && WellCut(l) && Flat(l) == left && WellCut(r) && Flat(r) == right
            && BothKept(l, r, m) && Stopped(l, r, m)
            && (Halves(l, r) ==> m.lDone && !m.rDone)
            && (Halves(r, l) ==> m.rDone && !m.lDone)
            && Calculate(left, right) == Settle(left, right, Parts(l, r, Tail(l, r, m)))
  {
    CutIsWellCut(left);
    CutIsWellCut(right);
    var l, r := Cut(left), Cut(right);
    assert l != [] && r != [];
    hide Cut, Flat, WellCut, Tail, Parts, Settle, Meet, Kept, Start, Halves;
    MeetFacts(l, r);
  }

  lemma EndsJoin(l: seq<Segment>, r: seq<Segment>, m: Ends)
    requires BothKept(l, r, m) && m.lDone == m.rDone
    ensures Joins(Settle(Flat(l), Flat(r), Parts(l, r, Tail(l, r, m))), Flat(l), Flat(r))
  {
    Flags(l, r, m);
    hide Flat, Settle, Refine, Unmatched, Tail, Kept;
    if m.lDone {
      BothUsedUp(l, r, m);
      EmptySplit(Flat(l));
    } else {
      TailKeeps(l, r, m);
      PartsJoin(l, r, Tail(l, r, m));
    }
  }

  lemma EmptySplit(left: string)
    ensures Joins(Split(left, "", "", ""), left, left)
  {
    assert left + "" == left;
  }

  /** When the loop ends with the two flags equal, the parts add up to both inputs. */
  lemma EqualFlagsJoin(left: string, right: string)
    requires left != "" && right != "" && LoopEnd(left, right).lDone == LoopEnd(left, right).rDone
    ensures Joins(Calculate(left, right), left, right)
  {
    var l, r, m := Cut(left), Cut(right), LoopEnd(left, right);
    LoopEndFacts(left, right);
    hide Cut, LoopEnd, BothKept, Tail, Parts, Settle, Flat, WellCut, Calculate, Halves, Joins;
    EndsJoin(l, r, m);
  }

  /** The four parts add up to the two inputs exactly when no segment is read twice. */
  lemma JoinsExactly(left: string, right: string)
    ensures Joins(Calculate(left, right), left, right) <==> !Rereads(left, right)
  {
    if left != "" && right != "" {
      LoopEndFacts(left, right);
      var l, r, m := Cut(left), Cut(right), LoopEnd(left, right);
      hide Cut, LoopEnd, Calculate, Flat, WellCut;
      NeverBoth(l, r);
      EndsJoinExactly(l, r, m);
    }
  }

  lemma NeverBoth(l: seq<Segment>, r: seq<Segment>)
    ensures !(DoubleRead(l, r) && DoubleRead(r, l))
    ensures DoubleRead(l, r) ==> Halves(l, r)
    ensures DoubleRead(r, l) ==> Halves(r, l)
  {
  }

  lemma EndsJoinExactly(l: seq<Segment>, r: seq<Segment>, m: Ends)
    requires WellCut(l) && WellCut(r) && BothKept(l, r, m) && Stopped(l, r, m)
    requires (Halves(l, r) ==> m.lDone && !m.rDone) && (Halves(r, l) ==> m.rDone && !m.lDone)
    ensures Joins(Settle(Flat(l), Flat(r), Parts(l, r, Tail(l, r, m))), Flat(l), Flat(r)) <==>
            !((DoubleRead(l, r) && (|r| == |l| + 1 || !(Flat(l) <= Flat(r)))) || DoubleRead(r, l))
  {
    Flags(l, r, m);
    NeverBoth(l, r);
    hide Flat, WellCut, Settle, Refine, Unmatched, Tail, Kept, DoubleRead, Joins, Halves;
    if m.lDone == m.rDone {
      EndsJoin(l, r, m);
    } else if m.lDone {
      LeftUsedUp(l, r, m);
      if DoubleRead(l, r) {
        CollapsedDoesNotJoin(Flat(l), Flat(r));
      } else {
        PartsJoin(l, r, Tail(l, r, m));
      }
    } else {
      RightUsedUp(l, r, m);
      if DoubleRead(r, l) {
        CollapsedDoesNotJoin(Flat(l), Flat(r));
      } else {
        PartsJoin(l, r, Tail(l, r, m));
      }
    }
  }

  lemma CollapsedDoesNotJoin(left: string, right: string)
    ensures left != right ==> !Joins(Split(left, "", "", ""), left, right)
  {
    assert left + "" + "" == left;
  }

  /** Inputs cut into equally many segments are always put back together. */
  lemma EqualCountsJoin(left: string, right: string)
    requires |Cut(left)| == |Cut(right)|
    ensures Joins(Calculate(left, right), left, right)
  {
    JoinsExactly(left, right);
  }

  /** One input is the other with one more marker in the middle, equal to the one that follows it. */
  predicate Collapses(left: string, right: string) {
    var l, r := Cut(left), Cut(right);
    (DoubleRead(l, r) && |r| == |l| + 1) || (DoubleRead(r, l) && |l| == |r| + 1)
  }

  lemma {:induction false} MeetSame(l: seq<Segment>, e: Ends)
    requires InRange(l, l, e) && e.ls == e.rs && e.le == e.re && e.lDone == e.rDone
    ensures var m := Meet(l, l, e); m.ls == m.rs == m.le == m.re && m.lDone == m.rDone
    decreases e.le - e.ls
  {
    if Test(e) {
      MeetSame(l, TakeBack(l, l, TakeFront(l, l, e)));
    }
  }

  lemma SameInputs(text: string)
    requires text != ""
    ensures Calculate(text, text) == Split(text, "", "", "")
  {
    var l := Cut(text);
    LoopEndFacts(text, text);
    MeetSame(l, Start(l, l));
    hide Cut, Meet, Flat, WellCut, Settle, Calculate, Kept, Start, Stopped, Tail;
    SameEnds(l, LoopEnd(text, text));
  }

  lemma SameEnds(l: seq<Segment>, m: Ends)
    requires BothKept(l, l, m) && m.ls == m.rs == m.le == m.re && m.lDone == m.rDone
    ensures Settle(Flat(l), Flat(l), Parts(l, l, Tail(l, l, m))) == Split(Flat(l), "", "", "")
  {
    Flags(l, l, m);
    hide Flat, Kept, Settle, Refine, Unmatched;
    if m.lDone {
      BothUsedUp(l, l, m);
    } else {
      var t := Tail(l, l, m);
      var v := Flat(Unmatched(l, t.ls, t.le, t.lDone));
      UnmatchedNothing(l, m.ls);
      RefineSame(t.prefix, t.suffix, v, l[m.ls].kind == Text);
      SettleNothing(Flat(l), Flat(l), Parts(l, l, t));
    }
  }

  lemma RefineSame(prefix: string, suffix: string, v: string, isText: bool)
    requires isText || v == ""
    ensures var d := Refine(prefix, suffix, v, v, isText, isText); d.left == "" && d.right == ""
  {
    if isText {
      var n := SuffixLen(v, v);
      assert AgreeBack(v, v, n + 1) == (n + 1 <= |v|);
    }
  }

  /** No difference is reported exactly for equal inputs and for the collapsing family. */
  lemma NothingReportedExactly(left: string, right: string)
    ensures Calculate(left, right).left == "" && Calculate(left, right).right == "" <==>
            left == right || Collapses(left, right)
  {
    if left != "" && right != "" {
      var l, r, m, d := Cut(left), Cut(right), LoopEnd(left, right), Calculate(left, right);
      LoopEndFacts(left, right);
      JoinsExactly(left, right);
      if left == right {
        SameInputs(left);
      }
      hide Cut, LoopEnd, BothKept, Tail, Parts, Settle, Flat, WellCut, Calculate;
      if m.lDone && !m.rDone {
        LeftUsedUp(l, r, m);
      } else if m.rDone && !m.lDone {
        RightUsedUp(l, r, m);
      }
      if Joins(d, left, right) && d.left == d.right {
        assert left == right;
      }
    }
  }

  /** One more marker goes unnoticed. */
  lemma DroppedMarker()
    ensures Calculate("<a><b>", "<a><b><b>") == Split("<a><b>", "", "", "")
    ensures Rereads("<a><b>", "<a><b><b>")
  {
    var left, right := "<a><b>", "<a><b><b>";
    DroppedMarkerCuts();
    var l, r := Cut(left), Cut(right);
    hide Cut, Flat, WellCut;
    assert l[..1] == r[..1] && l[1..] == r[2..];
    assert DoubleRead(l, r);
    LoopEndFacts(left, right);
    hide LoopEnd, Calculate, DoubleRead;
    LeftUsedUp(l, r, LoopEnd(left, right));
  }

  lemma DroppedMarkerCuts()
    ensures Cut("<a><b>") == [Segment(Marker, "<a>"), Segment(Marker, "<b>")]
    ensures Cut("<a><b><b>") == [Segment(Marker, "<a>"), Segment(Marker, "<b>"), Segment(Marker, "<b>")]
  {
    var a, b := Segment(Marker, "<a>"), Segment(Marker, "<b>");
    assert IsMarker("<a>") && IsMarker("<b>");
    assert [b][1..] == [] && [b, b][1..] == [b] && [a, b][1..] == [b] && [a, b, b][1..] == [b, b];
    hide Cut, IsMarker;
    assert Flat([b]) == "<b>" && Flat([b, b]) == "<b><b>";
    assert Flat([a, b]) == "<a><b>" && Flat([a, b, b]) == "<a><b><b>";
    assert WellCut([b]) && WellCut([b, b]);
    CutIsUnique([a, b]);
    CutIsUnique([a, b, b]);
  }

  // ----- the operation -----

  method Concatenate(segs: seq<Segment>) returns (text: string)
    ensures text == Flat(segs)
  {
    text := "";
    for i := 0 to |segs|
      invariant text == Flat(segs[..i])
    {
      assert segs[..i + 1] == segs[..i] + [segs[i]];
      FlatConcat(segs[..i], [segs[i]]);
      FlatOne(segs[i]);
      text := text + segs[i].value;
    }
    assert segs[..|segs|] == segs;
  }

  /** Only where both sides begin (or end) in text may a segment be cut. */
  method RefineText(prefix: string, suffix: string, left: string, right: string, textPrefix: bool, textSuffix: bool)
    returns (d: Split)
    ensures d == Refine(prefix, suffix, left, right, textPrefix, textSuffix)
  {
    Agree0(left, right);
    hide AgreeFront, AgreeBack, PrefixLen, SuffixLen;
    var s, p := 0, 0;
    if textSuffix {
      s := CommonSuffixLen(left, right);
    }
    Agree0(left[..|left| - s], right[..|right| - s]);
    if textPrefix {
      p := CommonPrefixLen(left[..|left| - s], right[..|right| - s]);
    }
    d := Split(prefix + left[..p], left[|left| - s..] + suffix, left[p..|left| - s], right[p..|right| - s]);
  }

  method CalculateDiffSplit(left: string, right: string) returns (d: Split)
    ensures d == Calculate(left, right)
    ensures Joins(d, left, right) <==> !Rereads(left, right)
  {
    JoinsExactly(left, right);
    CutIsWellCut(left);
    CutIsWellCut(right);
    hide Cut, Meet, Flat, WellCut, Rereads, Joins, Refine, Settle, Tail;
    var l := SegmentizeMarkers(left);
    var r := SegmentizeMarkers(right);
    if l == [] {
      return Split("", "", "", right);
    }
    if r == [] {
      return Split("", "", left, "");
    }
    var e := MeetInTheMiddle(l, r);
    var t := Tail(l, r, e);
    var textSuffix := l[t.le].kind == Text && r[t.re].kind == Text;
    var textPrefix := r[t.rs].kind == Text && l[t.ls].kind == Text;
    var restLeft := Concatenate(Unmatched(l, t.ls, t.le, t.lDone));
    var restRight := Concatenate(Unmatched(r, t.rs, t.re, t.rDone));
    d := RefineText(t.prefix, t.suffix, restLeft, restRight, textPrefix, textSuffix);
    d := Settle(left, right, d);
  }
}
