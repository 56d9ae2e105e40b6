/** Cutting template output into markers and the text between them. */
module Segments {
  import opened JsonText

  // The code runs one loop with a marker flag; the specification says which lists of segments are
  // cuts of a text, and that each text has exactly one.

  datatype Kind = Text | Marker

  datatype Segment = Segment(kind: Kind, value: string)

  predicate Opener(c: char) { c == '<' || c == '[' }

  function CloserOf(opener: char): char { if opener == '<' then '>' else ']' }

  /** The text that a list of segments stands for. */
  function Flat(segs: seq<Segment>): string {
    if segs == [] then "" else segs[0].value + Flat(segs[1..])
  }

  lemma {:induction false} FlatConcat(a: seq<Segment>, b: seq<Segment>)
    ensures Flat(a + b) == Flat(a) + Flat(b)
  {
    if a == [] {
      assert a + b == b;
    } else {
      FlatConcat(a[1..], b);
      var c := a + b;
      assert c[0] == a[0] && c[1..] == a[1..] + b;
      Assoc(a[0].value, Flat(a[1..]), Flat(b));
    }
  }

  lemma FlatOne(s: Segment)
    ensures Flat([s]) == s.value
  {
    assert [s][1..] == [];
  }

  // ----- what a cut is -----

  predicate Plain(v: string) { forall k :: 0 <= k < |v| ==> !Opener(v[k]) }

  /** A marker runs from an opener to the first closer that matches it. */
  predicate IsMarker(v: string) {
    |v| >= 2 && Opener(v[0]) && v[|v| - 1] == CloserOf(v[0]) && CloserOf(v[0]) !in v[..|v| - 1]
  }

  predicate Unclosed(v: string) {
    v != "" && Opener(v[0]) && CloserOf(v[0]) !in v
  }

  /** Every segment is a marker or non-empty plain text, plain texts are as long as they can be,
      and only the last segment may be the text of a marker that never closes. */
  predicate WellCut(segs: seq<Segment>) {
    segs == [] ||
    (&& WellCut(segs[1..])
     && var v := segs[0].value;
        match segs[0].kind
        case Marker => IsMarker(v)
        case Text => v != "" && ((Unclosed(v) && |segs| == 1) || (Plain(v) && (|segs| == 1 || !StartsPlain(segs[1])))))
  }

  predicate StartsPlain(s: Segment) { s.kind == Text && Plain(s.value) }

  // ----- the only cut -----

  function FirstOpener(t: string): (n: nat)
    ensures n <= |t| && Plain(t[..n]) && (n < |t| ==> Opener(t[n]))
  {
    if t == "" || Opener(t[0]) then 0
    else
      assert t == [t[0]] + t[1..];
      1 + FirstOpener(t[1..])
  }

  function FirstOf(t: string, c: char): (n: nat)
    ensures n <= |t| && c !in t[..n] && (n < |t| ==> t[n] == c)
  {
    if t == "" || t[0] == c then 0
    else
      assert t == [t[0]] + t[1..];
      1 + FirstOf(t[1..], c)
  }

  function First(t: string): (s: Segment)
    requires t != ""
    ensures s.value != "" && s.value <= t
  {
    if Opener(t[0]) then
      var n := FirstOf(t, CloserOf(t[0]));
      if n < |t| then Segment(Marker, t[..n + 1]) else Segment(Text, t)
    else
      Segment(Text, t[..FirstOpener(t)])
  }

  function Cut(t: string): seq<Segment> {
    if t == "" then [] else [First(t)] + Cut(t[|First(t).value|..])
  }

  lemma CutStep(t: string)
    requires t != ""
    ensures Cut(t) == [First(t)] + Cut(t[|First(t).value|..])
  {
  }

  lemma FirstIsCut(t: string)
    requires t != ""
    ensures var v, rest := First(t).value, t[|First(t).value|..];
            match First(t).kind
            case Marker => IsMarker(v)
            case Text => (Unclosed(v) && rest == "") || (Plain(v) && (rest == "" || Opener(rest[0])))
    ensures Opener(t[0]) ==> !StartsPlain(First(t))
  {
  }

  lemma {:induction false} CutIsWellCut(t: string)
    ensures WellCut(Cut(t)) && Flat(Cut(t)) == t
  {
    hide First, IsMarker, Unclosed, Plain;
    if t != "" {
      var s, rest := First(t), t[|First(t).value|..];
      CutIsWellCut(rest);
      FirstIsCut(t);
      var segs := Cut(t);
      CutStep(t);
      assert segs[0] == s && segs[1..] == Cut(rest);
      assert t == s.value + rest;
      if rest != "" {
        CutStep(rest);
        FirstIsCut(rest);
      }
    }
  }

  /** In a cut the text alone decides the first segment. */
  lemma FirstIsForced(segs: seq<Segment>)
    requires WellCut(segs) && segs != []
    ensures Flat(segs) != "" && First(Flat(segs)) == segs[0]
  {
    var t, v, rest := Flat(segs), segs[0].value, Flat(segs[1..]);
    assert t == v + rest;
    assert t[..|v|] == v && t[0] == v[0];
    if segs[0].kind == Marker {
      var c := CloserOf(v[0]);
      assert t[|v| - 1] == c;
      FirstOfIs(t, c, |v| - 1);
    } else if Unclosed(v) {
      assert rest == "" && t == v;
      FirstOfIs(t, CloserOf(v[0]), |v|);
    } else {
      if rest != "" {
        StartOf(segs[1..]);
        assert t[|v|] == rest[0];
      }
      FirstOpenerIs(t, |v|);
    }
  }

  lemma StartOf(segs: seq<Segment>)
    requires WellCut(segs) && segs != [] && !StartsPlain(segs[0])
    ensures Flat(segs) != "" && Opener(Flat(segs)[0])
  {
    assert Flat(segs)[0] == segs[0].value[0];
  }

  lemma {:induction false} FirstOfIs(t: string, c: char, n: nat)
    requires n <= |t| && c !in t[..n] && (n < |t| ==> t[n] == c)
    ensures FirstOf(t, c) == n
  {
    if n > 0 {
      assert t[..n][0] == t[0];
      assert t[1..][..n - 1] == t[..n][1..];
      FirstOfIs(t[1..], c, n - 1);
    }
  }

  lemma {:induction false} FirstOpenerIs(t: string, n: nat)
    requires n <= |t| && Plain(t[..n]) && (n < |t| ==> Opener(t[n]))
    ensures FirstOpener(t) == n
  {
    if n > 0 {
      assert t[..n][0] == t[0];
      assert t[1..][..n - 1] == t[..n][1..];
      FirstOpenerIs(t[1..], n - 1);
    }
  }

  /** There is only one way to cut a text. */
  lemma {:induction false} CutIsUnique(segs: seq<Segment>)
    requires WellCut(segs)
    ensures segs == Cut(Flat(segs))
  {
    if segs != [] {
      FirstIsForced(segs);
      CutIsUnique(segs[1..]);
      var t := Flat(segs);
      assert t == segs[0].value + Flat(segs[1..]);
      assert t[|segs[0].value|..] == Flat(segs[1..]);
      CutStep(t);
    }
  }

  /** `segs` is the cut of `text` exactly when it is well cut and stands for `text`. */
  lemma CutExactly(segs: seq<Segment>, text: string)
    ensures segs == Cut(text) <==> WellCut(segs) && Flat(segs) == text
  {
    CutIsWellCut(text);
    if WellCut(segs) && Flat(segs) == text {
      CutIsUnique(segs);
    }
  }

  // ----- the loop -----

  /** What has been cut off so far, and that the rest starts at `from`. */
  predicate CutSoFar(text: string, segs: seq<Segment>, from: nat) {
    from <= |text| && Cut(text) == segs + Cut(text[from..])
  }

  lemma Pushed(text: string, segs: seq<Segment>, from: nat, to: nat, s: Segment)
    requires CutSoFar(text, segs, from) && from < to <= |text|
    requires First(text[from..]) == s && s.value == text[from..to]
    ensures CutSoFar(text, segs + [s], to)
  {
    hide First, Cut;
    CutStep(text[from..]);
    var a, b, c := segs, [s], Cut(text[to..]);
    assert a + (b + c) == a + b + c;
    assert text[from..][to - from..] == text[to..];
  }

  lemma PushText(text: string, segs: seq<Segment>, from: nat, to: nat)
    requires CutSoFar(text, segs, from) && from < to <= |text|
    requires Plain(text[from..to]) && (to < |text| ==> Opener(text[to]))
    ensures CutSoFar(text, segs + [Segment(Text, text[from..to])], to)
  {
    hide Cut, CutSoFar;
    var t := text[from..];
    assert t[..to - from] == text[from..to] && !Opener(text[from..to][0]);
    FirstOpenerIs(t, to - from);
    Pushed(text, segs, from, to, Segment(Text, text[from..to]));
  }

  lemma PushMarker(text: string, segs: seq<Segment>, from: nat, pos: nat)
    requires CutSoFar(text, segs, from) && from < pos < |text|
    requires Opener(text[from]) && CloserOf(text[from]) !in text[from..pos] && text[pos] == CloserOf(text[from])
    ensures CutSoFar(text, segs + [Segment(Marker, text[from..pos + 1])], pos + 1)
  {
    hide Cut, CutSoFar;
    var t := text[from..];
    assert t[..pos - from] == text[from..pos] && t[..pos - from + 1] == text[from..pos + 1];
    FirstOfIs(t, CloserOf(text[from]), pos - from);
    Pushed(text, segs, from, pos + 1, Segment(Marker, text[from..pos + 1]));
  }

  lemma PushUnclosed(text: string, segs: seq<Segment>, from: nat)
    requires CutSoFar(text, segs, from) && from < |text|
    requires Opener(text[from]) && CloserOf(text[from]) !in text[from..]
    ensures CutSoFar(text, segs + [Segment(Text, text[from..])], |text|)
  {
    hide Cut, CutSoFar;
    var t := text[from..];
    assert t[..|t|] == t;
    FirstOfIs(t, CloserOf(text[from]), |t|);
    Pushed(text, segs, from, |text|, Segment(Text, text[from..]));
  }

  lemma AllCut(text: string, segs: seq<Segment>)
    requires CutSoFar(text, segs, |text|)
    ensures segs == Cut(text)
  {
    assert segs + [] == segs;
  }

  method SegmentizeMarkers(text: string) returns (segs: seq<Segment>)
    ensures WellCut(segs) && Flat(segs) == text
    ensures segs == Cut(text)
  {
    hide Cut, Flat, WellCut;
    segs := [];
    assert CutSoFar(text, [], 0) by {
      assert text[0..] == text && [] + Cut(text) == Cut(text);
    }
    hide CutSoFar;
    var inMarker := false;
    var opener := '\0';
    var lastBorder := 0;
    for pos := 0 to |text|
      invariant 0 <= lastBorder <= pos
      invariant CutSoFar(text, segs, lastBorder)
      invariant !inMarker ==> Plain(text[lastBorder..pos])
      invariant inMarker ==> lastBorder < pos && text[lastBorder] == opener && Opener(opener)
      invariant inMarker ==> CloserOf(opener) !in text[lastBorder..pos]
    {
      assert text[lastBorder..pos + 1] == text[lastBorder..pos] + [text[pos]];
      if !inMarker && Opener(text[pos]) {
        if lastBorder < pos {
          PushText(text, segs, lastBorder, pos);
          segs := segs + [Segment(Text, text[lastBorder..pos])];
        }
        lastBorder := pos;
        inMarker := true;
        opener := text[pos];
        assert text[pos..pos + 1] == [opener];
      } else if inMarker && text[pos] == CloserOf(opener) {
        PushMarker(text, segs, lastBorder, pos);
        segs := segs + [Segment(Marker, text[lastBorder..pos + 1])];
        lastBorder := pos + 1;
        inMarker := false;
        opener := '\0';
      }
    }
    assert text[lastBorder..|text|] == text[lastBorder..];
    if lastBorder < |text| {
      if inMarker {
        PushUnclosed(text, segs, lastBorder);
      } else {
        PushText(text, segs, lastBorder, |text|);
      }
      segs := segs + [Segment(Text, text[lastBorder..])];
    }
    AllCut(text, segs);
    CutIsWellCut(text);
  }
}
