/** Splitting a prompt into message spans. The code walks the tokens with an iterator over the
    regions to skip; the specification asks of each position on its own whether a span starts
    there. */
module Spans {
  import opened Wrappers

  datatype Role = Unknown | System | Assistant | User | Tool

  datatype Delimiter = Delimiter(role: Role, tokens: seq<int>)

  datatype Region = Region(start: nat, length: nat)

  datatype Match = Match(role: Role, pos: nat)

  datatype Span = Span(role: Role, pos: nat, length: nat)

  function End(r: Region): nat { r.start + r.length }

  /** A map from start to length: starts strictly increase. */
  predicate Ordered(skips: seq<Region>) {
    forall a, b :: 0 <= a < b < |skips| ==> skips[a].start < skips[b].start
  }

  predicate Disjoint(skips: seq<Region>) {
    forall a, b :: 0 <= a < b < |skips| ==> End(skips[a]) <= skips[b].start
  }

  predicate InRegion(r: Region, p: nat) { r.start <= p < End(r) }

  predicate Skipped(skips: seq<Region>, p: nat) {
    exists r <- skips :: InRegion(r, p)
  }

  // ----- which delimiter -----

  predicate MatchesAt(d: Delimiter, tokens: seq<int>, p: nat) {
    p + |d.tokens| <= |tokens| && tokens[p..p + |d.tokens|] == d.tokens
  }

  /** The role of the first delimiter that matches. */
  function RoleAt(delimiters: seq<Delimiter>, tokens: seq<int>, p: nat): Option<Role> {
    if delimiters == [] then None
    else if MatchesAt(delimiters[0], tokens, p) then Some(delimiters[0].role)
    else RoleAt(delimiters[1..], tokens, p)
  }

  lemma {:induction false} RoleAtIsFirst(delimiters: seq<Delimiter>, tokens: seq<int>, p: nat, i: nat)
    requires i < |delimiters| && MatchesAt(delimiters[i], tokens, p)
    requires forall j :: 0 <= j < i ==> !MatchesAt(delimiters[j], tokens, p)
    ensures RoleAt(delimiters, tokens, p) == Some(delimiters[i].role)
  {
    hide MatchesAt;
    if i > 0 {
      RoleAtIsFirst(delimiters[1..], tokens, p, i - 1);
    }
  }

  lemma {:induction false} RoleAtIsNone(delimiters: seq<Delimiter>, tokens: seq<int>, p: nat)
    requires forall j :: 0 <= j < |delimiters| ==> !MatchesAt(delimiters[j], tokens, p)
    ensures RoleAt(delimiters, tokens, p) == None
  {
    hide MatchesAt;
    if delimiters != [] {
      RoleAtIsNone(delimiters[1..], tokens, p);
    }
  }

  // ----- where spans start -----

  /** All starts from `from` on, in order. */
  function Starts(delimiters: seq<Delimiter>, tokens: seq<int>, skips: seq<Region>, from: nat): seq<Match>
    decreases |tokens| - from
  {
    if from >= |tokens| then []
    else
      var rest := Starts(delimiters, tokens, skips, from + 1);
      var role := RoleAt(delimiters, tokens, from);
      if Skipped(skips, from) || role.None? then rest else [Match(role.value, from)] + rest
  }

  lemma {:induction false} StartsIncrease(delimiters: seq<Delimiter>, tokens: seq<int>, skips: seq<Region>, from: nat)
    ensures Increasing(Starts(delimiters, tokens, skips, from), |tokens|)
    ensures forall i :: 0 <= i < |Starts(delimiters, tokens, skips, from)| ==>
                from <= Starts(delimiters, tokens, skips, from)[i].pos
    decreases |tokens| - from
  {
    hide Skipped, RoleAt;
    if from < |tokens| {
      StartsIncrease(delimiters, tokens, skips, from + 1);
      FirstIncreases(from, RoleAt(delimiters, tokens, from), Starts(delimiters, tokens, skips, from + 1), |tokens|);
    }
  }

  lemma FirstIncreases(from: nat, role: Option<Role>, rest: seq<Match>, end: nat)
    requires Increasing(rest, end) && from < end && forall i :: 0 <= i < |rest| ==> from < rest[i].pos
    ensures role.Some? ==> Increasing([Match(role.value, from)] + rest, end)
  {
  }

  /** A position is listed exactly when it is outside every region and a delimiter matches there,
      with the role of the first one. */
  lemma {:induction false} StartsExactly(delimiters: seq<Delimiter>, tokens: seq<int>, skips: seq<Region>, from: nat,
                                         p: nat, role: Role)
    ensures Match(role, p) in Starts(delimiters, tokens, skips, from) <==>
            from <= p < |tokens| && !Skipped(skips, p) && RoleAt(delimiters, tokens, p) == Some(role)
    decreases |tokens| - from
  {
    hide Skipped, RoleAt;
    if from < |tokens| {
      var rest := Starts(delimiters, tokens, skips, from + 1);
      StartsExactly(delimiters, tokens, skips, from + 1, p, role);
      if !Skipped(skips, from) && RoleAt(delimiters, tokens, from).Some? {
        var first := Match(RoleAt(delimiters, tokens, from).value, from);
        assert Match(role, p) in [first] + rest <==> Match(role, p) == first || Match(role, p) in rest;
      }
    }
  }

  predicate Increasing(ms: seq<Match>, end: nat) {
    && (forall i, j :: 0 <= i < j < |ms| ==> ms[i].pos < ms[j].pos)
    && (forall i :: 0 <= i < |ms| ==> ms[i].pos < end)
  }

  // ----- which regions the walk honours -----

  /** The regions up to the first one that begins before its predecessor ends; the iterator never
      gets past that one. */
  function Honoured(skips: seq<Region>): (n: nat)
    ensures n <= |skips| && (skips != [] ==> n > 0)
  {
    if |skips| <= 1 then |skips|
    else if End(skips[0]) <= skips[1].start then 1 + Honoured(skips[1..])
    else 1
  }

  lemma {:induction false} HonouredIs(skips: seq<Region>)
    ensures var n := Honoured(skips);
            && (forall k :: 0 <= k < n - 1 ==> End(skips[k]) <= skips[k + 1].start)
            && (n < |skips| ==> End(skips[n - 1]) > skips[n].start)
  {
    if |skips| > 1 && End(skips[0]) <= skips[1].start {
      var rest := skips[1..];
      HonouredIs(rest);
      var n := Honoured(skips);
      forall k | 0 <= k < n - 1 ensures End(skips[k]) <= skips[k + 1].start {
        assert k > 0 ==> skips[k] == rest[k - 1] && skips[k + 1] == rest[k - 1 + 1];
      }
      assert n < |skips| ==> skips[n - 1] == rest[n - 2] && skips[n] == rest[n - 1];
    }
  }

  /** All regions are honoured exactly when they do not overlap. */
  lemma AllHonouredExactly(skips: seq<Region>)
    requires Ordered(skips)
    ensures Honoured(skips) == |skips| <==> Disjoint(skips)
  {
    HonouredIs(skips);
    if Honoured(skips) == |skips| {
      forall a, b | 0 <= a < b < |skips| ensures End(skips[a]) <= skips[b].start {
        assert End(skips[a]) <= skips[a + 1].start;
      }
    }
  }

  function Used(skips: seq<Region>): seq<Region> { skips[..Honoured(skips)] }

  // ----- the walk -----

  /** The region the iterator points at is still ahead, or it is the one that is never reached. */
  predicate Pointing(skips: seq<Region>, k: nat, i: nat) {
    && k <= Honoured(skips)
    && (k < Honoured(skips) ==> i <= skips[k].start)
    && (k == Honoured(skips) && k < |skips| ==> skips[k].start < i)
    && forall j :: 0 <= j < k ==> End(skips[j]) <= i
  }

  lemma PointingSkip(skips: seq<Region>, k: nat, i: nat)
    requires Ordered(skips) && Pointing(skips, k, i) && k < |skips| && i == skips[k].start
    ensures k < Honoured(skips) && Pointing(skips, k + 1, End(skips[k]))
  {
    HonouredIs(skips);
  }

  lemma PointingStep(skips: seq<Region>, k: nat, i: nat)
    requires Ordered(skips) && Pointing(skips, k, i) && (k < |skips| ==> i != skips[k].start)
    ensures Pointing(skips, k, i + 1) && !Skipped(Used(skips), i)
  {
    var used := Used(skips);
    forall r | r in used ensures !InRegion(r, i) {
      var j :| 0 <= j < |used| && used[j] == r;
      assert r == skips[j];
      assert j > k ==> skips[k].start < skips[j].start;
    }
  }

  lemma {:induction false} StartsSkip(delimiters: seq<Delimiter>, tokens: seq<int>, skips: seq<Region>,
                                      r: Region, from: nat)
    requires r in skips && r.start <= from <= End(r)
    ensures Starts(delimiters, tokens, skips, from) == Starts(delimiters, tokens, skips, End(r))
    decreases End(r) - from
  {
    hide RoleAt;
    if from < End(r) {
      assert InRegion(r, from);
      StartsSkip(delimiters, tokens, skips, r, from + 1);
    }
  }

  lemma StartsStep(delimiters: seq<Delimiter>, tokens: seq<int>, skips: seq<Region>, from: nat)
    requires from < |tokens| && !Skipped(skips, from)
    ensures Starts(delimiters, tokens, skips, from) ==
            (var role := RoleAt(delimiters, tokens, from); if role.Some? then [Match(role.value, from)] else []) +
            Starts(delimiters, tokens, skips, from + 1)
  {
    hide RoleAt, Skipped;
  }

  method FindRole(delimiters: seq<Delimiter>, tokens: seq<int>, p: nat) returns (r: Option<Role>)
    requires p < |tokens|
    ensures r == RoleAt(delimiters, tokens, p)
  {
    hide RoleAt;
    for k := 0 to |delimiters|
      invariant forall j :: 0 <= j < k ==> !MatchesAt(delimiters[j], tokens, p)
    {
      var d := delimiters[k];
      if p + |d.tokens| > |tokens| {
        continue;
      }
      if tokens[p..p + |d.tokens|] == d.tokens {
        RoleAtIsFirst(delimiters, tokens, p, k);
        return Some(d.role);
      }
    }
    RoleAtIsNone(delimiters, tokens, p);
    r := None;
  }

  method FindStarts(delimiters: seq<Delimiter>, tokens: seq<int>, skips: seq<Region>) returns (matches: seq<Match>)
    requires Ordered(skips)
    ensures matches == Starts(delimiters, tokens, Used(skips), 0)
  {
    hide Starts, RoleAt, Skipped, Honoured;
    matches := [];
    var skip, i := 0, 0;
    ghost var used := Used(skips);
    assert [] + Starts(delimiters, tokens, used, 0) == Starts(delimiters, tokens, used, 0);
    BeginPointing(skips);
    while i < |tokens|
      invariant Pointing(skips, skip, i)
      invariant matches + Starts(delimiters, tokens, used, i) == Starts(delimiters, tokens, used, 0)
      decreases |tokens| - i, |skips| - skip
    {
      if skip < |skips| && i == skips[skip].start {
        PointingSkip(skips, skip, i);
        assert used[skip] == skips[skip];
        StartsSkip(delimiters, tokens, used, skips[skip], i);
        i := i + skips[skip].length;
        skip := skip + 1;
        continue;
      }
      PointingStep(skips, skip, i);
      StartsStep(delimiters, tokens, used, i);
      var role := FindRole(delimiters, tokens, i);
      ghost var rest := Starts(delimiters, tokens, used, i + 1);
      if role.Some? {
        assert matches + ([Match(role.value, i)] + rest) == matches + [Match(role.value, i)] + rest;
        matches := matches + [Match(role.value, i)];
      } else {
        assert [] + rest == rest;
      }
      i := i + 1;
    }
    NoStarts(delimiters, tokens, used, i);
    assert matches + [] == matches;
  }

  lemma BeginPointing(skips: seq<Region>)
    ensures Pointing(skips, 0, 0)
  {
  }

  lemma NoStarts(delimiters: seq<Delimiter>, tokens: seq<int>, skips: seq<Region>, from: nat)
    requires from >= |tokens|
    ensures Starts(delimiters, tokens, skips, from) == []
  {
  }

  // ----- the spans -----

  /** Each span runs to the next start, the last one to the end. */
  function Between(ms: seq<Match>, end: nat): (spans: seq<Span>)
    requires Increasing(ms, end)
    ensures |spans| == |ms|
  {
    seq(|ms|, i requires 0 <= i < |ms| =>
          Span(ms[i].role, ms[i].pos, (if i + 1 < |ms| then ms[i + 1].pos else end) - ms[i].pos))
  }

  function SplitTokens(delimiters: seq<Delimiter>, tokens: seq<int>, skips: seq<Region>): seq<Span> {
    StartsIncrease(delimiters, tokens, Used(skips), 0);
    Between(Starts(delimiters, tokens, Used(skips), 0), |tokens|)
  }

  method Split(delimiters: seq<Delimiter>, tokens: seq<int>, skips: seq<Region>) returns (spans: seq<Span>)
    requires Ordered(skips)
    ensures spans == SplitTokens(delimiters, tokens, skips)
  {
    hide Starts, Used, RoleAt, Skipped;
    var starts := FindStarts(delimiters, tokens, skips);
    StartsIncrease(delimiters, tokens, Used(skips), 0);
    var matches := starts + [Match(Unknown, |tokens|)];
    spans := [];
    for i := 0 to |matches| - 1
      invariant spans == Between(starts, |tokens|)[..i]
    {
      var curr, next := matches[i], matches[i + 1];
      spans := spans + [Span(curr.role, curr.pos, next.pos - curr.pos)];
    }
  }

  /** A span starts at a position, with that role, exactly when the position is outside every
      honoured region and the first delimiter that matches there has the role. */
  lemma SpanStartsExactly(delimiters: seq<Delimiter>, tokens: seq<int>, skips: seq<Region>, p: nat, role: Role)
    ensures (exists s <- SplitTokens(delimiters, tokens, skips) :: s.pos == p && s.role == role) <==>
            p < |tokens| && !Skipped(Used(skips), p) && RoleAt(delimiters, tokens, p) == Some(role)
  {
    hide Starts, Used, RoleAt, Skipped;
    var ms, spans := Starts(delimiters, tokens, Used(skips), 0), SplitTokens(delimiters, tokens, skips);
    StartsIncrease(delimiters, tokens, Used(skips), 0);
    StartsExactly(delimiters, tokens, Used(skips), 0, p, role);
    if s :| s in spans && s.pos == p && s.role == role {
      var i :| 0 <= i < |spans| && spans[i] == s;
      assert ms[i] == Match(role, p);
    }
    if Match(role, p) in ms {
      var i :| 0 <= i < |ms| && ms[i] == Match(role, p);
      assert spans[i] in spans && spans[i].pos == p && spans[i].role == role;
    }
  }

  /** No span starts inside a region that is to be skipped. */
  predicate Respected(delimiters: seq<Delimiter>, tokens: seq<int>, skips: seq<Region>) {
    forall s <- SplitTokens(delimiters, tokens, skips) :: !Skipped(skips, s.pos)
  }

  /** The regions are respected, whatever the tokens and delimiters, exactly when the honoured ones
      cover every position of the others. */
  lemma RespectedExactly(skips: seq<Region>)
    ensures (forall delimiters, tokens :: Respected(delimiters, tokens, skips)) <==>
            forall p :: Skipped(skips, p) ==> Skipped(Used(skips), p)
  {
    hide Used, SplitTokens, RoleAt, Skipped;
    if forall delimiters, tokens :: Respected(delimiters, tokens, skips) {
      forall p | Skipped(skips, p) ensures Skipped(Used(skips), p) {
        var delimiters, tokens := [Delimiter(User, [7])], seq(p + 1, _ => 7);
        assert MatchesAt(delimiters[0], tokens, p);
        RoleAtIsFirst(delimiters, tokens, p, 0);
        SpanStartsExactly(delimiters, tokens, skips, p, User);
        assert Respected(delimiters, tokens, skips);
      }
    }
    if forall p :: Skipped(skips, p) ==> Skipped(Used(skips), p) {
      forall delimiters, tokens ensures Respected(delimiters, tokens, skips) {
        forall s | s in SplitTokens(delimiters, tokens, skips) ensures !Skipped(skips, s.pos) {
          SpanStartsExactly(delimiters, tokens, skips, s.pos, s.role);
        }
      }
    }
  }

  predicate Inside(tokens: seq<int>, spans: seq<Span>) {
    forall i :: 0 <= i < |spans| ==> spans[i].length > 0 && spans[i].pos + spans[i].length <= |tokens|
  }

  /** The text of the spans, one after the other. */
  function Covered(tokens: seq<int>, spans: seq<Span>): seq<int>
    requires Inside(tokens, spans)
  {
    if spans == [] then []
    else tokens[spans[0].pos..spans[0].pos + spans[0].length] + Covered(tokens, spans[1..])
  }

  lemma BetweenTiles(tokens: seq<int>, ms: seq<Match>)
    requires Increasing(ms, |tokens|)
    ensures var spans := Between(ms, |tokens|);
            && Inside(tokens, spans)
            && (forall i :: 0 <= i < |spans| - 1 ==> spans[i].pos + spans[i].length == spans[i + 1].pos)
  {
  }

  lemma {:induction false} BetweenCovers(tokens: seq<int>, ms: seq<Match>)
    requires Increasing(ms, |tokens|) && ms != []
    ensures Inside(tokens, Between(ms, |tokens|))
    ensures Covered(tokens, Between(ms, |tokens|)) == tokens[ms[0].pos..]
  {
    var spans, end := Between(ms, |tokens|), if |ms| > 1 then ms[1].pos else |tokens|;
    BetweenTiles(tokens, ms);
    BetweenTail(tokens, ms);
    FirstSpan(tokens, ms);
    hide *;
    CoveredUnfolds(tokens, spans);
    if |ms| == 1 {
      NothingCovered(tokens);
      Rejoin(tokens, ms[0].pos, |tokens|);
    } else {
      BetweenCovers(tokens, ms[1..]);
      Rejoin(tokens, ms[0].pos, end);
    }
  }

  lemma FirstSpan(tokens: seq<int>, ms: seq<Match>)
    requires Increasing(ms, |tokens|) && ms != []
    ensures var spans, end := Between(ms, |tokens|), if |ms| > 1 then ms[1].pos else |tokens|;
            && spans != [] && spans[0].pos == ms[0].pos && spans[0].pos + spans[0].length == end
            && ms[0].pos <= end <= |tokens| && (|ms| == 1 ==> spans[1..] == [])
  {
  }

  lemma Rejoin(tokens: seq<int>, from: nat, mid: nat)
    requires from <= mid <= |tokens|
    ensures tokens[from..] == tokens[from..mid] + tokens[mid..] && tokens[|tokens|..] == []
  {
  }

  lemma CoveredUnfolds(tokens: seq<int>, spans: seq<Span>)
    requires Inside(tokens, spans) && spans != []
    ensures Inside(tokens, spans[1..]) && spans[0].pos + spans[0].length <= |tokens|
    ensures Covered(tokens, spans) ==
            tokens[spans[0].pos..spans[0].pos + spans[0].length] + Covered(tokens, spans[1..])
  {
  }

  lemma NothingCovered(tokens: seq<int>)
    ensures Inside(tokens, []) && Covered(tokens, []) == []
  {
  }

  lemma BetweenTail(tokens: seq<int>, ms: seq<Match>)
    requires Increasing(ms, |tokens|) && ms != []
    ensures Increasing(ms[1..], |tokens|) && Between(ms, |tokens|)[1..] == Between(ms[1..], |tokens|)
    ensures Inside(tokens, Between(ms[1..], |tokens|))
  {
    BetweenTiles(tokens, ms[1..]);
  }

  /** Spans are not empty and together are the tokens from the first start to the end, without gap
      or overlap. */
  lemma SpansTile(delimiters: seq<Delimiter>, tokens: seq<int>, skips: seq<Region>)
    ensures var spans := SplitTokens(delimiters, tokens, skips);
            && Inside(tokens, spans)
            && (forall i :: 0 <= i < |spans| - 1 ==> spans[i].pos + spans[i].length == spans[i + 1].pos)
            && (spans != [] ==> Covered(tokens, spans) == tokens[spans[0].pos..])
  {
    hide Starts, Used, RoleAt, Skipped, Inside, Covered;
    var ms := Starts(delimiters, tokens, Used(skips), 0);
    StartsIncrease(delimiters, tokens, Used(skips), 0);
    BetweenTiles(tokens, ms);
    if ms != [] {
      BetweenCovers(tokens, ms);
    }
  }

  /** Overlapping regions: the second is never reached, and with it the third is lost. */
  lemma LostRegion()
    ensures var skips := [Region(0, 2), Region(1, 1), Region(3, 1)];
            && Ordered(skips) && Skipped(skips, 3)
            && (exists s <- SplitTokens([Delimiter(User, [7])], [0, 0, 0, 7], skips) :: s.pos == 3 && s.role == User)
  {
    var skips, d, tokens := [Region(0, 2), Region(1, 1), Region(3, 1)], [Delimiter(User, [7])], [0, 0, 0, 7];
    assert InRegion(skips[2], 3) && skips[2] in skips;
    assert Used(skips) == [Region(0, 2)];
    assert MatchesAt(d[0], tokens, 3);
    assert RoleAt(d, tokens, 3) == Some(User);
    assert !Skipped(Used(skips), 3);
    SpanStartsExactly(d, tokens, skips, 3, User);
  }
}
