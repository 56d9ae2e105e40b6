/** That the diff takes out everything the two outputs share at their ends: common segments, and in the text
    that is left common characters. */
module DiffMaximal {
  import opened Segments
  import opened DiffLoop
  import opened DiffSplit

  // ----- markers -----

  /** A marker is `<...>` or `[...]` without another closer of its kind; plain text has neither opener. */
  lemma MarkersSpelled(v: string)
    ensures IsMarker(v) <==>
            |v| >= 2
            && var inner := v[1..|v| - 1];
               || (v[0] == '<' && v[|v| - 1] == '>' && '>' !in inner)
               || (v[0] == '[' && v[|v| - 1] == ']' && ']' !in inner)
    ensures Segments.Plain(v) <==> '<' !in v && '[' !in v
  {
    if |v| >= 2 {
      assert v[..|v| - 1] == [v[0]] + v[1..|v| - 1];
    }
  }

  // ----- longest common ends -----

  predicate CommonStart(a: string, b: string, n: nat) {
    n <= |a| && n <= |b| && a[..n] == b[..n]
  }

  predicate CommonEnd(a: string, b: string, n: nat) {
    n <= |a| && n <= |b| && a[|a| - n..] == b[|b| - n..]
  }

  ghost predicate LongestStart(a: string, b: string, n: nat) {
    CommonStart(a, b, n) && forall m: nat :: CommonStart(a, b, m) ==> m <= n
  }

  ghost predicate LongestEnd(a: string, b: string, n: nat) {
    CommonEnd(a, b, n) && forall m: nat :: CommonEnd(a, b, m) ==> m <= n
  }

  lemma StartAgrees(a: string, b: string, n: nat)
    ensures CommonStart(a, b, n) <==> AgreeFront(a, b, n)
  {
    if CommonStart(a, b, n) {
      forall k | 0 <= k < n ensures a[k] == b[k] {
        assert a[..n][k] == b[..n][k];
      }
    }
  }

  lemma EndAgrees(a: string, b: string, n: nat)
    ensures CommonEnd(a, b, n) <==> AgreeBack(a, b, n)
  {
    if CommonEnd(a, b, n) {
      forall k | 0 <= k < n ensures FromBack(a, k) == FromBack(b, k) {
        assert a[|a| - n..][n - 1 - k] == b[|b| - n..][n - 1 - k];
      }
    } else if AgreeBack(a, b, n) {
      AgreeingBacks(a, b, n);
    }
  }

  lemma LongestIsStart(a: string, b: string, n: nat)
    requires AgreeFront(a, b, n) && !AgreeFront(a, b, n + 1)
    ensures LongestStart(a, b, n)
  {
    StartAgrees(a, b, n);
    forall m: nat | CommonStart(a, b, m) ensures m <= n {
      StartAgrees(a, b, m);
    }
  }

  lemma LongestIsEnd(a: string, b: string, n: nat)
    requires AgreeBack(a, b, n) && !AgreeBack(a, b, n + 1)
    ensures LongestEnd(a, b, n)
  {
    EndAgrees(a, b, n);
    forall m: nat | CommonEnd(a, b, m) ensures m <= n {
      EndAgrees(a, b, m);
    }
  }

  /** The counted lengths are the longest ones. */
  lemma LengthsAreLongest(a: string, b: string)
    ensures AgreeFront(a, b, 0) && LongestStart(a, b, PrefixLen(a, b))
    ensures AgreeBack(a, b, 0) && LongestEnd(a, b, SuffixLen(a, b))
  {
    Agree0(a, b);
    hide AgreeFront, AgreeBack, PrefixLen, SuffixLen, LongestStart, LongestEnd;
    LongestIsStart(a, b, PrefixLen(a, b));
    LongestIsEnd(a, b, SuffixLen(a, b));
  }

  // ----- refining text -----

  /** How the text that is left is cut. */
  lemma RefineIs(prefix: string, suffix: string, left: string, right: string, textPrefix: bool, textSuffix: bool)
    returns (p: nat, s: nat, left': string, right': string)
    ensures p + s <= |left| && p + s <= |right| && left' == left[..|left| - s] && right' == right[..|right| - s]
    ensures textSuffix ==> AgreeBack(left, right, s) && !AgreeBack(left, right, s + 1)
    ensures textPrefix ==> AgreeFront(left', right', p) && !AgreeFront(left', right', p + 1)
    ensures Refine(prefix, suffix, left, right, textPrefix, textSuffix)
            == Split(prefix + left[..p], left[|left| - s..] + suffix, left[p..|left| - s], right[p..|right| - s])
  {
    hide AgreeFront, AgreeBack, PrefixLen, SuffixLen;
    Agree0(left, right);
    s := if textSuffix then SuffixLen(left, right) else 0;
    left', right' := left[..|left| - s], right[..|right| - s];
    Agree0(left', right');
    p := if textPrefix then PrefixLen(left', right') else 0;
  }

  // ----- two texts -----

  /** No markers: one segment of text, or nothing. */
  predicate AllText(t: string) { t == "" || Cut(t) == [Segment(Text, t)] }

  lemma PlainIsText(t: string)
    requires Plain(t)
    ensures AllText(t)
  {
    if t != "" {
      assert Plain(t[..FirstOpener(t)]);
      assert FirstOpener(t) == |t|;
      CutStep(t);
      assert t[..|t|] == t && t[|t|..] == "";
    }
  }

  /** The split of two texts by their longest common end and the longest common start of the rest. */
  function ByEnds(left: string, right: string, p: nat, s: nat): Split
    requires p + s <= |left| && p + s <= |right|
  {
    Split(left[..p], left[|left| - s..], left[p..|left| - s], right[p..|right| - s])
  }

  lemma OneSegmentEach(left: string, right: string)
    requires AllText(left) && AllText(right) && left != "" && right != ""
    ensures Calculate(left, right) == Settle(left, right, Refine("", "", left, right, true, true))
  {
    var l, r := [Segment(Text, left)], [Segment(Text, right)];
    var e := Start(l, r);
    assert Meet(l, r, e) == e && Tail(l, r, e) == e;
    assert l[0..1] == l && r[0..1] == r;
    FlatOne(l[0]);
    FlatOne(r[0]);
    hide Refine, Settle, Cut, Flat;
  }

  /** If the left text begins the right one, its rest before the common end begins that of the right one. */
  lemma BeginsAll(left: string, right: string, s: nat, p: nat)
    requires left <= right && s <= |left| && s <= |right|
    requires LongestStart(left[..|left| - s], right[..|right| - s], p)
    ensures p == |left| - s
  {
    var n := |left| - s;
    assert right[..|right| - s][..n] == right[..n] == left[..n];
    assert CommonStart(left[..n], right[..|right| - s], n);
  }

  lemma SameHalves(left: string, right: string, p: nat)
    requires |left| == |right| && p <= |left| && left[..p] == right[..p] && left[p..] == right[p..]
    ensures left == right
  {
    assert left == left[..p] + left[p..] && right == right[..p] + right[p..];
  }

  /** What the texts share does not make up both of them. */
  lemma NotTheSame(left: string, right: string, p: nat, s: nat)
    requires p + s <= |left| && p + s <= |right| && !(left <= right)
    requires left[|left| - s..] == right[|right| - s..] && left[..p] == right[..p]
    ensures Settle(left, right, ByEnds(left, right, p, s)) == ByEnds(left, right, p, s)
  {
    if p + s == |left| && p + s == |right| {
      SameHalves(left, right, p);
    }
  }

  lemma TextsShare(left: string, right: string) returns (p: nat, s: nat)
    ensures p + s <= |left| && p + s <= |right|
    ensures LongestEnd(left, right, s) && LongestStart(left[..|left| - s], right[..|right| - s], p)
    ensures Refine("", "", left, right, true, true) == ByEnds(left, right, p, s)
  {
    hide *;
    var left', right';
    p, s, left', right' := RefineIs("", "", left, right, true, true);
    LongestIsEnd(left, right, s);
    LongestIsStart(left', right', p);
    BareEnds(left, right, p, s);
  }

  lemma BareEnds(left: string, right: string, p: nat, s: nat)
    requires p + s <= |left| && p + s <= |right|
    ensures Split("" + left[..p], left[|left| - s..] + "", left[p..|left| - s], right[p..|right| - s])
         == ByEnds(left, right, p, s)
  {
    assert "" + left[..p] == left[..p] && left[|left| - s..] + "" == left[|left| - s..];
  }

  lemma SharedParts(left: string, right: string, p: nat, s: nat)
    requires p + s <= |left| && p + s <= |right|
    requires LongestEnd(left, right, s) && LongestStart(left[..|left| - s], right[..|right| - s], p)
    ensures left[|left| - s..] == right[|right| - s..] && left[..p] == right[..p]
  {
    assert left[..|left| - s][..p] == left[..p] && right[..|right| - s][..p] == right[..p];
  }

  /** Two texts: unless the left one begins the right one, what they share is their longest common end and
      the longest common start of the rest, and nothing of it is in the differing parts. */
  lemma TextsSplit(left: string, right: string) returns (p: nat, s: nat)
    requires AllText(left) && AllText(right)
    ensures p + s <= |left| && p + s <= |right|
    ensures LongestEnd(left, right, s) && LongestStart(left[..|left| - s], right[..|right| - s], p)
    ensures Calculate(left, right) ==
            if left <= right then Split(left, "", "", right[|left|..]) else ByEnds(left, right, p, s)
  {
    hide Refine, Calculate, AllText, LongestEnd, LongestStart, Settle, ByEnds;
    p, s := TextsShare(left, right);
    if left == "" || right == "" {
      TextAndNothing(left, right, p, s);
    } else if left == right {
      SameInputs(left);
    } else {
      OneSegmentEach(left, right);
      SharedParts(left, right, p, s);
      if left <= right {
        BeginsAll(left, right, s, p);
        SettleBegins(left, right, p, s);
      } else {
        NotTheSame(left, right, p, s);
      }
    }
  }

  lemma SettleBegins(left: string, right: string, p: nat, s: nat)
    requires left <= right && left != right && p + s == |left|
    ensures Settle(left, right, ByEnds(left, right, p, s)) == Split(left, "", "", right[|left|..])
  {
    assert |right| > |left|;
  }

  lemma TextAndNothing(left: string, right: string, p: nat, s: nat)
    requires left == "" || right == ""
    requires p + s <= |left| && p + s <= |right|
    ensures Calculate(left, right) ==
            if left <= right then Split(left, "", "", right[|left|..]) else ByEnds(left, right, p, s)
  {
    if left == "" {
      assert right[0..] == right;
    } else {
      assert left[0..|left| - 0] == left && left[|left|..] == "" && left[..0] == "" && right[0..|right| - 0] == "";
    }
  }

  // ----- any two outputs: segments -----

  /** Where the segments stop matching. */
  function LastEnds(left: string, right: string): (t: Ends)
    requires left != "" && right != ""
    ensures InRange(Cut(left), Cut(right), t)
  {
    Tail(Cut(left), Cut(right), LoopEnd(left, right))
  }

  lemma {:induction false} MeetIsDone(l: seq<Segment>, r: seq<Segment>, e: Ends)
    requires InRange(l, r, e)
    ensures var m := Meet(l, r, e); !Test(m) || !Advances(l, r, m)
    decreases e.le - e.ls
  {
    if Test(e) && Advances(l, r, e) {
      MeetIsDone(l, r, TakeBack(l, r, TakeFront(l, r, e)));
    }
  }

  /** After the tail no pair of ends is left that is equal, save two single segments that are. */
  lemma TailIsDone(l: seq<Segment>, r: seq<Segment>, m: Ends)
    requires InRange(l, r, m) && (!Test(m) || !Advances(l, r, m))
    ensures var t := Tail(l, r, m);
            && (!t.lDone ==> !m.lDone) && (!t.rDone ==> !m.rDone)
            && (!t.lDone && !t.rDone ==>
                  || (l[t.ls] != r[t.rs] && l[t.le] != r[t.re])
                  || (t == m && m.ls == m.le && m.rs == m.re && l[m.ls] == r[m.rs]))
  {
  }

  /** Two single segments that are equal make the inputs equal. */
  lemma SinglesEqual(l: seq<Segment>, r: seq<Segment>, m: Ends)
    requires BothKept(l, r, m) && !m.lDone && !m.rDone
    requires m.ls == m.le && m.rs == m.re && l[m.ls] == r[m.rs]
    ensures Flat(l) == Flat(r)
  {
    assert l[m.ls..m.le + 1] == [l[m.ls]] && r[m.rs..m.re + 1] == [r[m.rs]];
    hide Flat;
  }

  /** Different outputs: where both sides still have segments, they differ in the first and in the last. */
  lemma NoPairLeft(left: string, right: string)
    requires left != "" && right != "" && left != right
    ensures var l, r, t := Cut(left), Cut(right), LastEnds(left, right);
            !t.lDone && !t.rDone ==> l[t.ls] != r[t.rs] && l[t.le] != r[t.re]
  {
    LoopEndFacts(left, right);
    var l, r, m := Cut(left), Cut(right), LoopEnd(left, right);
    assert !Test(m) || !Advances(l, r, m) by { MeetIsDone(l, r, Start(l, r)); }
    TailIsDone(l, r, m);
    hide Cut, Flat, WellCut, Meet, Tail, LoopEnd, Calculate;
    if !m.lDone && !m.rDone && m.ls == m.le && m.rs == m.re && l[m.ls] == r[m.rs] {
      SinglesEqual(l, r, m);
    }
  }

  // ----- any two outputs: characters -----

  predicate LastDiffer(a: string, b: string) {
    a != "" && b != "" ==> a[|a| - 1] != b[|b| - 1]
  }

  predicate FirstDiffer(a: string, b: string) {
    a != "" && b != "" ==> a[0] != b[0]
  }

  lemma LastCut(left: string, right: string, p: nat, s: nat)
    requires p + s <= |left| && p + s <= |right| && AgreeBack(left, right, s) && !AgreeBack(left, right, s + 1)
    ensures LastDiffer(left[p..|left| - s], right[p..|right| - s])
  {
    if p + s < |left| && p + s < |right| {
      assert FromBack(left, s) != FromBack(right, s);
    }
  }

  lemma FirstCut(left: string, right: string, p: nat, s: nat, left': string, right': string)
    requires p + s <= |left| && p + s <= |right| && left' == left[..|left| - s] && right' == right[..|right| - s]
    requires AgreeFront(left', right', p) && !AgreeFront(left', right', p + 1)
    ensures FirstDiffer(left[p..|left| - s], right[p..|right| - s])
  {
    if p + s < |left| && p + s < |right| {
      assert left'[p] != right'[p];
    }
  }

  lemma RefinedDiffer(prefix: string, suffix: string, left: string, right: string, textPrefix: bool, textSuffix: bool)
    ensures var d := Refine(prefix, suffix, left, right, textPrefix, textSuffix);
            (textSuffix ==> LastDiffer(d.left, d.right)) && (textPrefix ==> FirstDiffer(d.left, d.right))
  {
    hide *;
    var p, s, left', right' := RefineIs(prefix, suffix, left, right, textPrefix, textSuffix);
    if textSuffix {
      LastCut(left, right, p, s);
    }
    if textPrefix {
      FirstCut(left, right, p, s, left', right');
    }
  }

  lemma SettledDiffer(left: string, right: string, d: Split)
    ensures LastDiffer(d.left, d.right) ==> LastDiffer(Settle(left, right, d).left, Settle(left, right, d).right)
    ensures FirstDiffer(d.left, d.right) ==> FirstDiffer(Settle(left, right, d).left, Settle(left, right, d).right)
  {
  }

  /** Where the segments at an end of what is left are text on both sides, the differing parts have no common
      character at that end. */
  lemma PartsDiffer(left: string, right: string)
    requires left != "" && right != ""
    ensures var l, r, t, d := Cut(left), Cut(right), LastEnds(left, right), Calculate(left, right);
            && (l[t.le].kind == Text && r[t.re].kind == Text ==> LastDiffer(d.left, d.right))
            && (l[t.ls].kind == Text && r[t.rs].kind == Text ==> FirstDiffer(d.left, d.right))
  {
    LoopEndFacts(left, right);
    var l, r, t := Cut(left), Cut(right), LastEnds(left, right);
    hide Cut, Flat, WellCut, Refine, Settle, Tail, LoopEnd, Calculate, LastDiffer, FirstDiffer, Halves, Kept, Stopped;
    RefinedDiffer(t.prefix, t.suffix, Flat(Unmatched(l, t.ls, t.le, t.lDone)), Flat(Unmatched(r, t.rs, t.re, t.rDone)),
                  r[t.rs].kind == Text && l[t.ls].kind == Text, l[t.le].kind == Text && r[t.re].kind == Text);
    SettledDiffer(left, right, Parts(l, r, t));
  }
}
