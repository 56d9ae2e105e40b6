/** The matching loop of the segment diff: four indices walk inwards from both ends of two lists of
    segments, and two flags say which list was used up on the way. */
module DiffLoop {
  import opened JsonText
  import opened Segments

  /** Both ends of what is still unmatched on either side (inclusive), and what was matched. */
  datatype Ends = Ends(ls: nat, le: nat, rs: nat, re: nat, lDone: bool, rDone: bool, prefix: string, suffix: string)

  predicate InRange(l: seq<Segment>, r: seq<Segment>, e: Ends) {
    e.ls <= e.le < |l| && e.rs <= e.re < |r|
  }

  function Start(l: seq<Segment>, r: seq<Segment>): (e: Ends)
    requires l != [] && r != []
    ensures InRange(l, r, e)
  {
    Ends(0, |l| - 1, 0, |r| - 1, false, false, "", "")
  }

  predicate Test(e: Ends) { e.ls != e.le && e.rs != e.re }

  predicate Advances(l: seq<Segment>, r: seq<Segment>, e: Ends)
    requires InRange(l, r, e)
  {
    l[e.ls] == r[e.rs] || l[e.le] == r[e.re]
  }

  function TakeFront(l: seq<Segment>, r: seq<Segment>, e: Ends): (f: Ends)
    requires InRange(l, r, e) && Test(e)
    ensures InRange(l, r, f) && f.le == e.le && f.re == e.re
  {
    if l[e.ls] == r[e.rs] then e.(prefix := e.prefix + l[e.ls].value, ls := e.ls + 1, rs := e.rs + 1) else e
  }

  function TakeBack(l: seq<Segment>, r: seq<Segment>, e: Ends): (f: Ends)
    requires InRange(l, r, e)
    ensures InRange(l, r, f)
  {
    if l[e.le] == r[e.re] then
      e.(suffix := l[e.le].value + e.suffix,
      le := if e.ls != e.le then e.le - 1 else e.le,
      lDone := e.lDone || e.ls == e.le,
      re := if e.rs != e.re then e.re - 1 else e.re,
      rDone := e.rDone || e.rs == e.re)
    else e
  }

  /** Where the loop stops. */
  function Meet(l: seq<Segment>, r: seq<Segment>, e: Ends): (m: Ends)
    requires InRange(l, r, e)
    ensures InRange(l, r, m)
    decreases e.le - e.ls
  {
    if Test(e) && Advances(l, r, e) then Meet(l, r, TakeBack(l, r, TakeFront(l, r, e))) else e
  }

  function Tail(l: seq<Segment>, r: seq<Segment>, e: Ends): (t: Ends)
    requires InRange(l, r, e)
    ensures InRange(l, r, t)
  {
    if e.ls == e.le && e.rs != e.re then
      if l[e.ls] == r[e.re] then e.(suffix := r[e.re].value + e.suffix, re := e.re - 1, lDone := true)
      else if l[e.ls] == r[e.rs] then e.(prefix := e.prefix + r[e.rs].value, rs := e.rs + 1, lDone := true)
      else e
    else if e.rs == e.re && e.ls != e.le then
      if l[e.le] == r[e.rs] then e.(suffix := l[e.le].value + e.suffix, le := e.le - 1, rDone := true)
      else if l[e.ls] == r[e.rs] then e.(prefix := e.prefix + l[e.ls].value, ls := e.ls + 1, rDone := true)
      else e
    else if e.ls == e.le && e.rs == e.re && l[e.ls] == r[e.rs] && l[e.ls].kind == Marker then
      e.(prefix := e.prefix + r[e.rs].value, lDone := true, rDone := true)
    else e
  }

  /** The segments of one side that were not matched. */
  function Unmatched(s: seq<Segment>, from: nat, to: nat, done: bool): seq<Segment>
    requires from <= to < |s|
  {
    if done then s[from..to] else s[from..to + 1]
  }

  // ----- one side at a time -----

  /** The matched parts and the unmatched segments of a side add up to it. */
  predicate Kept(s: seq<Segment>, e: Ends, from: nat, to: nat, done: bool) {
    && from <= to < |s|
    && (done ==> from == to)
    && e.prefix + Flat(Unmatched(s, from, to, done)) + e.suffix == Flat(s)
  }

  lemma KeptFront(s: seq<Segment>, e: Ends, f: Ends, from: nat, to: nat)
    requires Kept(s, e, from, to, false) && from < to
    requires f.prefix == e.prefix + s[from].value && f.suffix == e.suffix
    ensures Kept(s, f, from + 1, to, false)
  {
    hide Flat;
    var v, rest := s[from].value, s[from + 1..to + 1];
    assert s[from..to + 1] == [s[from]] + rest;
    FlatConcat([s[from]], rest);
    FlatOne(s[from]);
    Assoc(e.prefix, v, Flat(rest));
  }

  lemma KeptBack(s: seq<Segment>, e: Ends, f: Ends, from: nat, to: nat)
    requires Kept(s, e, from, to, false)
    requires f.prefix == e.prefix && f.suffix == s[to].value + e.suffix
    ensures from < to ==> Kept(s, f, from, to - 1, false)
    ensures from == to ==> Kept(s, f, from, to, true)
  {
    hide Flat;
    var v, rest := s[to].value, s[from..to];
    assert s[from..to + 1] == rest + [s[to]];
    FlatConcat(rest, [s[to]]);
    FlatOne(s[to]);
    Assoc(e.prefix, Flat(rest), v);
    Assoc(e.prefix + Flat(rest), v, e.suffix);
    assert from < to ==> Unmatched(s, from, to - 1, false) == rest;
    assert from == to ==> Unmatched(s, from, to, true) == rest;
  }

  lemma KeptOnly(s: seq<Segment>, e: Ends, f: Ends, at: nat)
    requires Kept(s, e, at, at, false)
    requires f.prefix == e.prefix + s[at].value && f.suffix == e.suffix
    ensures Kept(s, f, at, at, true)
  {
    assert s[at..at + 1] == [s[at]];
    FlatOne(s[at]);
    assert Flat(s[at..at]) == "" && f.prefix + "" == f.prefix;
  }

  // ----- the loop keeps both sides -----

  predicate BothKept(l: seq<Segment>, r: seq<Segment>, e: Ends) {
    Kept(l, e, e.ls, e.le, e.lDone) && Kept(r, e, e.rs, e.re, e.rDone)
  }

  lemma {:induction false} MeetKeeps(l: seq<Segment>, r: seq<Segment>, e: Ends)
    requires BothKept(l, r, e)
    ensures BothKept(l, r, Meet(l, r, e))
    decreases e.le - e.ls
  {
    if Test(e) && Advances(l, r, e) {
      TurnKeeps(l, r, e);
      hide Kept, TakeFront, TakeBack;
      MeetKeeps(l, r, TakeBack(l, r, TakeFront(l, r, e)));
    }
  }

  lemma TurnKeeps(l: seq<Segment>, r: seq<Segment>, e: Ends)
    requires BothKept(l, r, e) && Test(e)
    ensures BothKept(l, r, TakeBack(l, r, TakeFront(l, r, e)))
    ensures Advances(l, r, e) ==> var f := TakeBack(l, r, TakeFront(l, r, e)); f.le - f.ls < e.le - e.ls
  {
    hide Kept;
    Flags(l, r, e);
    FrontKeeps(l, r, e);
    BackKeeps(l, r, TakeFront(l, r, e));
  }

  lemma Flags(l: seq<Segment>, r: seq<Segment>, e: Ends)
    requires BothKept(l, r, e)
    ensures InRange(l, r, e) && (e.lDone ==> e.ls == e.le) && (e.rDone ==> e.rs == e.re)
  {
  }

  lemma FrontKeeps(l: seq<Segment>, r: seq<Segment>, e: Ends)
    requires BothKept(l, r, e) && Test(e)
    ensures BothKept(l, r, TakeFront(l, r, e))
  {
    hide Kept;
    Flags(l, r, e);
    if l[e.ls] == r[e.rs] {
      var f := TakeFront(l, r, e);
      KeptFront(l, e, f, e.ls, e.le);
      KeptFront(r, e, f, e.rs, e.re);
    }
  }

  lemma BackKeeps(l: seq<Segment>, r: seq<Segment>, e: Ends)
    requires BothKept(l, r, e) && !e.lDone && !e.rDone
    ensures BothKept(l, r, TakeBack(l, r, e))
  {
    hide Kept;
    Flags(l, r, e);
    if l[e.le] == r[e.re] {
      var f := TakeBack(l, r, e);
      KeptBack(l, e, f, e.ls, e.le);
      KeptBack(r, e, f, e.rs, e.re);
    }
  }

  /** The tail keeps both sides too, unless the loop had used up just one of them. */
  lemma TailKeeps(l: seq<Segment>, r: seq<Segment>, e: Ends)
    requires BothKept(l, r, e) && !e.lDone && !e.rDone
    ensures BothKept(l, r, Tail(l, r, e))
  {
    hide Kept;
    Flags(l, r, e);
    var t := Tail(l, r, e);
    if e.ls == e.le && e.rs != e.re {
      if l[e.ls] == r[e.re] {
        KeptBack(l, e, t, e.ls, e.le);
        KeptBack(r, e, t, e.rs, e.re);
      } else if l[e.ls] == r[e.rs] {
        KeptOnly(l, e, t, e.ls);
        KeptFront(r, e, t, e.rs, e.re);
      }
    } else if e.rs == e.re && e.ls != e.le {
      if l[e.le] == r[e.rs] {
        KeptBack(l, e, t, e.ls, e.le);
        KeptBack(r, e, t, e.rs, e.re);
      } else if l[e.ls] == r[e.rs] {
        KeptFront(l, e, t, e.ls, e.le);
        KeptOnly(r, e, t, e.rs);
      }
    } else if e.ls == e.le && e.rs == e.re && l[e.ls] == r[e.rs] && l[e.ls].kind == Marker {
      KeptOnly(l, e, t, e.ls);
      KeptOnly(r, e, t, e.rs);
    }
  }

  // ----- which sides the loop uses up -----

  /** The two halves of `a` stand at the two ends of the longer `b`. */
  predicate Halves(a: seq<Segment>, b: seq<Segment>) {
    && 0 < |a| < |b| && |a| % 2 == 0
    && a[..|a| / 2] == b[..|a| / 2]
    && a[|a| / 2..] == b[|b| - |a| / 2..]
  }

  /** What the loop knows between turns: how much was matched at either end, and that an end
      that fell behind has stopped for good. */
  predicate Balanced(l: seq<Segment>, r: seq<Segment>, e: Ends) {
    && InRange(l, r, e) && !e.lDone && !e.rDone
    && e.ls == e.rs && |l| - e.le == |r| - e.re
    && l[..e.ls] == r[..e.rs] && l[e.le + 1..] == r[e.re + 1..]
    && (e.ls < |l| - 1 - e.le ==> l[e.ls] != r[e.rs])
    && (|l| - 1 - e.le < e.ls ==> l[e.le] != r[e.re])
  }

  /** The loop ends with just one side used up only if that side is two halves of the other. */
  predicate Stopped(l: seq<Segment>, r: seq<Segment>, e: Ends) {
    && (e.lDone && !e.rDone ==> Halves(l, r) && e.ls == e.le == e.rs == |l| / 2 && e.re == |r| - 1 - |l| / 2)
    && (e.rDone && !e.lDone ==> Halves(r, l) && e.rs == e.re == e.ls == |r| / 2 && e.le == |l| - 1 - |r| / 2)
  }

  lemma {:induction false} MeetStops(l: seq<Segment>, r: seq<Segment>, e: Ends)
    requires Balanced(l, r, e)
    ensures Stopped(l, r, Meet(l, r, e))
    decreases e.le - e.ls
  {
    if Test(e) && Advances(l, r, e) {
      var f := TakeBack(l, r, TakeFront(l, r, e));
      TurnStops(l, r, e);
      if f.lDone || f.rDone {
        assert Meet(l, r, f) == f;
      } else {
        MeetStops(l, r, f);
      }
    }
  }

  lemma TurnStops(l: seq<Segment>, r: seq<Segment>, e: Ends)
    requires Balanced(l, r, e) && Test(e) && Advances(l, r, e)
    ensures var f := TakeBack(l, r, TakeFront(l, r, e));
            if f.lDone || f.rDone then Stopped(l, r, f) && !Test(f) else Balanced(l, r, f)
  {
    if l[e.le] == r[e.re] {
      if l[e.ls] == r[e.rs] {
        TurnBoth(l, r, e);
      } else {
        TurnBack(l, r, e);
      }
    } else {
      TurnFront(l, r, e);
    }
  }

  lemma TurnFront(l: seq<Segment>, r: seq<Segment>, e: Ends)
    requires Balanced(l, r, e) && Test(e) && l[e.ls] == r[e.rs] && l[e.le] != r[e.re]
    ensures Balanced(l, r, TakeBack(l, r, TakeFront(l, r, e)))
  {
    TurnMatches(l, r, e);
  }

  lemma TurnBack(l: seq<Segment>, r: seq<Segment>, e: Ends)
    requires Balanced(l, r, e) && Test(e) && l[e.ls] != r[e.rs] && l[e.le] == r[e.re]
    ensures Balanced(l, r, TakeBack(l, r, TakeFront(l, r, e)))
  {
    TurnMatches(l, r, e);
  }

  lemma TurnBoth(l: seq<Segment>, r: seq<Segment>, e: Ends)
    requires Balanced(l, r, e) && Test(e) && l[e.ls] == r[e.rs] && l[e.le] == r[e.re]
    ensures var f := TakeBack(l, r, TakeFront(l, r, e));
            if f.lDone || f.rDone then Stopped(l, r, f) && !Test(f) else Balanced(l, r, f)
  {
    TurnMatches(l, r, e);
  }

  lemma TurnMatches(l: seq<Segment>, r: seq<Segment>, e: Ends)
    requires Balanced(l, r, e) && Test(e)
    ensures l[e.ls] == r[e.rs] ==> l[..e.ls + 1] == r[..e.rs + 1]
    ensures l[e.le] == r[e.re] ==> l[e.le..] == r[e.re..]
  {
    assert l[..e.ls + 1] == l[..e.ls] + [l[e.ls]] && r[..e.rs + 1] == r[..e.rs] + [r[e.rs]];
    assert l[e.le..] == [l[e.le]] + l[e.le + 1..] && r[e.re..] == [r[e.re]] + r[e.re + 1..];
  }

  /** Two halves are always used up. */
  lemma {:induction false} HalvesAreUsedUp(l: seq<Segment>, r: seq<Segment>, e: Ends)
    requires InRange(l, r, e) && !e.lDone && !e.rDone && e.ls == e.rs
    requires e.le == |l| - 1 - e.ls && e.re == |r| - 1 - e.rs
    requires Halves(l, r) || Halves(r, l)
    requires e.ls < (if |l| < |r| then |l| else |r|) / 2
    ensures Meet(l, r, e).lDone == Halves(l, r) && Meet(l, r, e).rDone == Halves(r, l)
    decreases e.le - e.ls
  {
    var f := TakeBack(l, r, TakeFront(l, r, e));
    HalvesMatch(l, r, e);
    HalvesLengths(l, r);
    hide Halves, Meet;
    MeetTurn(l, r, e);
    MeetTurn(l, r, f);
    if !f.lDone && !f.rDone {
      HalvesAreUsedUp(l, r, f);
    }
  }

  lemma HalvesLengths(l: seq<Segment>, r: seq<Segment>)
    ensures Halves(l, r) ==> |l| < |r| && |l| % 2 == 0
    ensures Halves(r, l) ==> |r| < |l| && |r| % 2 == 0
  {
  }

  lemma HalvesMatch(l: seq<Segment>, r: seq<Segment>, e: Ends)
    requires InRange(l, r, e) && e.ls == e.rs && e.le == |l| - 1 - e.ls && e.re == |r| - 1 - e.rs
    requires Halves(l, r) || Halves(r, l)
    requires e.ls < (if |l| < |r| then |l| else |r|) / 2
    ensures l[e.ls] == r[e.rs] && l[e.le] == r[e.re]
  {
    var h := (if |l| < |r| then |l| else |r|) / 2;
    assert l[..h][e.ls] == l[e.ls] && r[..h][e.rs] == r[e.rs];
    assert l[|l| - h..][h - 1 - e.ls] == l[e.le] && r[|r| - h..][h - 1 - e.ls] == r[e.re];
  }

  // ----- the loop from the start -----

  lemma StartKept(l: seq<Segment>, r: seq<Segment>)
    requires l != [] && r != []
    ensures BothKept(l, r, Start(l, r)) && Balanced(l, r, Start(l, r))
  {
    hide Flat;
    assert l[0..|l|] == l && r[0..|r|] == r;
    assert "" + Flat(l) + "" == Flat(l) && "" + Flat(r) + "" == Flat(r);
  }

  lemma MeetFacts(l: seq<Segment>, r: seq<Segment>)
    requires l != [] && r != []
    ensures var m := Meet(l, r, Start(l, r));
            && BothKept(l, r, m) && Stopped(l, r, m)
            && (Halves(l, r) ==> m.lDone && !m.rDone)
            && (Halves(r, l) ==> m.rDone && !m.lDone)
  {
    hide Flat, Kept, Meet;
    var e := Start(l, r);
    StartKept(l, r);
    MeetKeeps(l, r, e);
    MeetStops(l, r, e);
    if Halves(l, r) || Halves(r, l) {
      HalvesAreUsedUp(l, r, e);
    }
  }

  lemma MeetTurn(l: seq<Segment>, r: seq<Segment>, e: Ends)
    requires InRange(l, r, e)
    ensures Meet(l, r, e) == if Test(e) && Advances(l, r, e) then Meet(l, r, TakeBack(l, r, TakeFront(l, r, e))) else e
  {
  }

  method MeetInTheMiddle(l: seq<Segment>, r: seq<Segment>) returns (e: Ends)
    requires l != [] && r != []
    ensures e == Meet(l, r, Start(l, r))
  {
    hide Meet;
    var ls, le, rs, re := 0, |l| - 1, 0, |r| - 1;
    var lDone, rDone := false, false;
    var prefix, suffix := "", "";
    while ls != le && rs != re
      invariant ls <= le < |l| && rs <= re < |r|
      invariant Meet(l, r, Ends(ls, le, rs, re, lDone, rDone, prefix, suffix)) == Meet(l, r, Start(l, r))
      decreases le - ls
    {
      ghost var was := Ends(ls, le, rs, re, lDone, rDone, prefix, suffix);
      MeetTurn(l, r, was);
      var advanced := false;
      if l[ls] == r[rs] {
        prefix := prefix + l[ls].value;
        ls, rs := ls + 1, rs + 1;
        advanced := true;
      }
      assert Ends(ls, le, rs, re, lDone, rDone, prefix, suffix) == TakeFront(l, r, was);
      if l[le] == r[re] {
        suffix := l[le].value + suffix;
        if ls != le {
          le := le - 1;
        } else {
          lDone := true;
        }
        if rs != re {
          re := re - 1;
        } else {
          rDone := true;
        }
        advanced := true;
      }
      if !advanced {
        return Ends(ls, le, rs, re, lDone, rDone, prefix, suffix);
      }
    }
    e := Ends(ls, le, rs, re, lDone, rDone, prefix, suffix);
    MeetTurn(l, r, e);
  }
}
