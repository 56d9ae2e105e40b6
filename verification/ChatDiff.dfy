/** Chat messages, the deltas between two readings of a growing message, and the client that
    adds the deltas up again. */
module ChatDiff {
  import opened Wrappers
  import opened JsonText

  datatype ToolCall = ToolCall(name: string, arguments: string, id: string)

  datatype Msg = Msg(reasoning: string, content: string, calls: seq<ToolCall>)

  /** A diff carries text deltas and, when `index` is set, a delta for one tool call. */
  datatype Index = NoIndex | At(i: nat)
  datatype Diff = Diff(reasoning: string, content: string, index: Index, call: ToolCall)

  datatype Error = InvalidDiff | FewerToolCalls | ToolCallMismatch

  type Outcome<+T> = Result<T, Error>

  const NO_CALL := ToolCall("", "", "")

  /** The text that `current` adds to `last`. A `current` that fell short of `last` is not an
      error: a partial stop word may have been erased. */
  function StringDiff(last: string, current: string): Outcome<string> {
    if last == "" then Ok(current)
    else if !(last <= current) then (if current <= last then Ok("") else Err(InvalidDiff))
    else Ok(current[|last|..])
  }

  /** For every pair of texts: the delta exists exactly when one text begins the other, and
      adding it gives the longer one. */
  lemma StringDiffExactly(last: string, current: string)
    ensures StringDiff(last, current).Ok? <==> last <= current || current <= last
    ensures StringDiff(last, current).Ok? ==>
              last + StringDiff(last, current).value == if last <= current then current else last
  {
    if last != "" && last <= current {
      assert last + current[|last|..] == current;
    }
  }

  // ----- the deltas -----

  function ReasoningDiffs(prv: Msg, new_: Msg): Outcome<seq<Diff>> {
    if prv.reasoning == new_.reasoning then Ok([])
    else match StringDiff(prv.reasoning, new_.reasoning)
         case Ok(d) => Ok([Diff(d, "", NoIndex, NO_CALL)])
         case Err(e) => Err(e)
  }

  function ContentDiffs(prv: Msg, new_: Msg): Outcome<seq<Diff>> {
    if prv.content == new_.content then Ok([])
    else match StringDiff(prv.content, new_.content)
         case Ok(d) => Ok([Diff("", d, NoIndex, NO_CALL)])
         case Err(e) => Err(e)
  }

  /** The last call of the old message against the call now standing at its place. */
  function CallDiffs(idx: nat, pref: ToolCall, newf: ToolCall): Outcome<seq<Diff>> {
    if pref.name != newf.name && pref.name != "" && newf.name != "" && !(pref.name <= newf.name) then
      Err(ToolCallMismatch)
    else match StringDiff(pref.arguments, newf.arguments)
         case Err(e) => Err(e)
         case Ok(args) =>
           var renamed := pref.id != newf.id || pref.name != newf.name;
           if args == "" && !renamed then Ok([])
           else Ok([Diff("", "", At(idx),
                         if renamed then ToolCall(newf.name, args, newf.id) else ToolCall("", args, ""))])
  }

  function NewCalls(calls: seq<ToolCall>, from: nat): (r: seq<Diff>)
    requires from <= |calls|
    ensures |r| == |calls| - from
    decreases |calls| - from
  {
    if from == |calls| then [] else [Diff("", "", At(from), calls[from])] + NewCalls(calls, from + 1)
  }

  function Diffs(prv: Msg, new_: Msg): Outcome<seq<Diff>> {
    match ReasoningDiffs(prv, new_)
    case Err(e) => Err(e)
    case Ok(rs) =>
      match ContentDiffs(prv, new_)
      case Err(e) => Err(e)
      case Ok(cs) =>
        if |new_.calls| < |prv.calls| then Err(FewerToolCalls)
        else
          var k := |prv.calls|;
          var last := if k == 0 then Ok([]) else CallDiffs(k - 1, prv.calls[k - 1], new_.calls[k - 1]);
          match last
          case Err(e) => Err(e)
          case Ok(ls) => Ok(rs + cs + ls + NewCalls(new_.calls, k))
  }

  /** The part of `compute_diffs` that compares the last call of the previous message. */
  method DiffCall(idx: nat, pref: ToolCall, newf: ToolCall) returns (r: Outcome<seq<Diff>>)
    ensures r == CallDiffs(idx, pref, newf)
  {
    hide StringDiff;
    if pref.name != newf.name && pref.name != "" && newf.name != "" {
      if !(pref.name <= newf.name) { return Err(ToolCallMismatch); }
    }
    var d := StringDiff(pref.arguments, newf.arguments);
    if d.Err? { return Err(d.error); }
    if d.value != "" || pref.id != newf.id || pref.name != newf.name {
      var delta := NO_CALL;
      if pref.id != newf.id || pref.name != newf.name {
        delta := delta.(id := newf.id, name := newf.name);
      }
      delta := delta.(arguments := d.value);
      return Ok([Diff("", "", At(idx), delta)]);
    }
    return Ok([]);
  }

  /** Its last loop, over the calls that are new. */
  method AppendNewCalls(done: seq<Diff>, calls: seq<ToolCall>, from: nat) returns (diffs: seq<Diff>)
    requires from <= |calls|
    ensures diffs == done + NewCalls(calls, from)
  {
    diffs := done;
    var idx := from;
    while idx < |calls|
      invariant from <= idx <= |calls|
      invariant diffs + NewCalls(calls, idx) == done + NewCalls(calls, from)
    {
      NewCallsStep(calls, idx);
      diffs := diffs + [Diff("", "", At(idx), calls[idx])];
      idx := idx + 1;
    }
    assert diffs + NewCalls(calls, idx) == diffs;
  }

  /** The vector-building form of the source. */
  method ComputeDiffs(prv: Msg, new_: Msg) returns (r: Outcome<seq<Diff>>)
    ensures r == Diffs(prv, new_)
  {
    hide StringDiff, CallDiffs;
    var diffs: seq<Diff> := [];
    if prv.reasoning != new_.reasoning {
      var d := StringDiff(prv.reasoning, new_.reasoning);
      if d.Err? { return Err(d.error); }
      diffs := diffs + [Diff(d.value, "", NoIndex, NO_CALL)];
    }
    if prv.content != new_.content {
      var d := StringDiff(prv.content, new_.content);
      if d.Err? { return Err(d.error); }
      diffs := diffs + [Diff("", d.value, NoIndex, NO_CALL)];
    }
    assert diffs == ReasoningDiffs(prv, new_).value + ContentDiffs(prv, new_).value;
    ghost var texts := diffs;
    if |new_.calls| < |prv.calls| { return Err(FewerToolCalls); }
    if prv.calls != [] {
      var idx := |prv.calls| - 1;
      var d := DiffCall(idx, prv.calls[idx], new_.calls[idx]);
      if d.Err? { return Err(d.error); }
      diffs := diffs + d.value;
    } else {
      assert diffs + [] == diffs;
    }
    assert diffs == texts + if prv.calls == [] then []
                            else
                              var k := |prv.calls| - 1;
                              CallDiffs(k, prv.calls[k], new_.calls[k]).value;
    hide ReasoningDiffs, ContentDiffs, NewCalls;
    diffs := AppendNewCalls(diffs, new_.calls, |prv.calls|);
    return Ok(diffs);
  }

  /** What a delta for a call may carry: a name or an id only if one of the two changed, and then both as
      they are now; a call that is new comes whole. */
  predicate DeltaFits(prv: Msg, new_: Msg, d: Diff) {
    match d.index
    case NoIndex =>
      && d.call == NO_CALL
      && (d.reasoning != "" ==> prv.reasoning != new_.reasoning)
      && (d.content != "" ==> prv.content != new_.content)
    case At(i) =>
      && d.reasoning == "" && d.content == "" && |prv.calls| <= i + 1 && i < |new_.calls|
      && if i >= |prv.calls| then d.call == new_.calls[i]
         else
           var p, q := prv.calls[i], new_.calls[i];
           if p.name == q.name && p.id == q.id then d.call.name == "" && d.call.id == "" && d.call.arguments != ""
           else d.call.name == q.name && d.call.id == q.id
  }

  lemma {:induction false} NewCallsFit(prv: Msg, new_: Msg, from: nat)
    requires |prv.calls| <= from <= |new_.calls|
    ensures forall j :: 0 <= j < |NewCalls(new_.calls, from)| ==> DeltaFits(prv, new_, NewCalls(new_.calls, from)[j])
    decreases |new_.calls| - from
  {
    if from < |new_.calls| {
      NewCallsFit(prv, new_, from + 1);
    }
  }

  /** Every delta says only what is new. */
  lemma DeltasFit(prv: Msg, new_: Msg)
    requires Diffs(prv, new_).Ok?
    ensures forall j :: 0 <= j < |Diffs(prv, new_).value| ==> DeltaFits(prv, new_, Diffs(prv, new_).value[j])
  {
    hide StringDiff, NewCalls;
    NewCallsFit(prv, new_, |prv.calls|);
  }

  // ----- the client -----

  function Pad(calls: seq<ToolCall>, n: nat): (r: seq<ToolCall>)
    ensures |calls| <= n ==> |r| == n
    ensures calls <= r
    decreases n - |calls|
  {
    if |calls| >= n then calls else Pad(calls + [NO_CALL], n)
  }

  function Merge(c: ToolCall, d: ToolCall): ToolCall {
    ToolCall(if d.name != "" then d.name else c.name,
             c.arguments + d.arguments,
             if d.id != "" then d.id else c.id)
  }

  /** One delta arrives: text is appended, a call is created when its index is new, and a
      non-empty name or id replaces the old one. */
  function Apply(m: Msg, d: Diff): Msg {
    var m1 := m.(reasoning := m.reasoning + d.reasoning, content := m.content + d.content);
    match d.index
    case NoIndex => m1
    case At(i) =>
      var calls := Pad(m.calls, i + 1);
      assert i < |calls|;
      m1.(calls := calls[i := Merge(calls[i], d.call)])
  }

  function ApplyAll(m: Msg, ds: seq<Diff>): Msg
    decreases |ds|
  {
    if ds == [] then m else ApplyAll(Apply(m, ds[0]), ds[1..])
  }

  lemma {:induction false} ApplyConcat(m: Msg, a: seq<Diff>, b: seq<Diff>)
    ensures ApplyAll(m, a + b) == ApplyAll(ApplyAll(m, a), b)
    decreases |a|
  {
    if a == [] {
      assert a + b == b;
    } else {
      ApplyConcat(Apply(m, a[0]), a[1..], b);
      assert (a + b)[1..] == a[1..] + b;
    }
  }

  lemma ApplyOne(m: Msg, d: Diff)
    ensures ApplyAll(m, [d]) == Apply(m, d)
  {
    assert [d][1..] == [];
  }

  // ----- what a client ends up with -----

  function Longer(a: string, b: string): string { if a <= b then b else a }

  /** The client's copy of the old last call after the update. */
  function MergedCall(pref: ToolCall, newf: ToolCall): ToolCall {
    ToolCall(if newf.name != "" then newf.name else pref.name,
             Longer(pref.arguments, newf.arguments),
             if newf.id != "" then newf.id else pref.id)
  }

  /** Everything before the old last call is taken to be unchanged; it is never looked at. */
  function Received(prv: Msg, new_: Msg): Msg
    requires |prv.calls| <= |new_.calls|
  {
    var k := |prv.calls|;
    Msg(Longer(prv.reasoning, new_.reasoning), Longer(prv.content, new_.content),
        if k == 0 then new_.calls
        else prv.calls[..k - 1] + [MergedCall(prv.calls[k - 1], new_.calls[k - 1])] + new_.calls[k..])
  }

  /** The update is possible: no text was rewritten, no call disappeared. */
  predicate Diffable(prv: Msg, new_: Msg) {
    && (prv.reasoning <= new_.reasoning || new_.reasoning <= prv.reasoning)
    && (prv.content <= new_.content || new_.content <= prv.content)
    && |prv.calls| <= |new_.calls|
    && (prv.calls != [] ==>
          var k := |prv.calls| - 1;
          && (prv.calls[k].name == "" || new_.calls[k].name == "" || prv.calls[k].name <= new_.calls[k].name)
          && (prv.calls[k].arguments <= new_.calls[k].arguments || new_.calls[k].arguments <= prv.calls[k].arguments))
  }

  lemma ApplyNewCall(m: Msg, c: ToolCall)
    ensures Apply(m, Diff("", "", At(|m.calls|), c)) == m.(calls := m.calls + [c])
  {
    assert Pad(m.calls, |m.calls| + 1) == m.calls + [NO_CALL];
    assert m.reasoning + "" == m.reasoning && m.content + "" == m.content;
    assert Merge(NO_CALL, c) == c by { assert "" + c.arguments == c.arguments; }
    assert (m.calls + [NO_CALL])[|m.calls| := c] == m.calls + [c];
  }

  lemma {:induction false} ApplyNewCalls(m: Msg, calls: seq<ToolCall>, from: nat)
    requires |m.calls| == from <= |calls|
    ensures ApplyAll(m, NewCalls(calls, from)) == m.(calls := m.calls + calls[from..])
    decreases |calls| - from
  {
    hide Apply;
    if from == |calls| {
      assert m.calls + calls[from..] == m.calls;
    } else {
      ApplyNewCall(m, calls[from]);
      var m1 := m.(calls := m.calls + [calls[from]]);
      ApplyNewCalls(m1, calls, from + 1);
      NewCallsStep(calls, from);
      hide NewCalls;
      assert m1.calls + calls[from + 1..] == m.calls + calls[from..];
    }
  }

  lemma NewCallsStep(calls: seq<ToolCall>, from: nat)
    requires from < |calls|
    ensures var ds := NewCalls(calls, from);
            ds != [] && ds[0] == Diff("", "", At(from), calls[from]) && ds[1..] == NewCalls(calls, from + 1)
    ensures NewCalls(calls, from) == [Diff("", "", At(from), calls[from])] + NewCalls(calls, from + 1)
  {
  }

  lemma ApplyText(m: Msg, reasoning: string, content: string)
    ensures ApplyAll(m, [Diff(reasoning, content, NoIndex, NO_CALL)])
            == m.(reasoning := m.reasoning + reasoning, content := m.content + content)
  {
    ApplyOne(m, Diff(reasoning, content, NoIndex, NO_CALL));
  }

  lemma ApplyTexts(prv: Msg, new_: Msg)
    requires ReasoningDiffs(prv, new_).Ok? && ContentDiffs(prv, new_).Ok?
    ensures ApplyAll(prv, ReasoningDiffs(prv, new_).value + ContentDiffs(prv, new_).value)
            == prv.(reasoning := Longer(prv.reasoning, new_.reasoning), content := Longer(prv.content, new_.content))
  {
    var rs, cs := ReasoningDiffs(prv, new_).value, ContentDiffs(prv, new_).value;
    StringDiffExactly(prv.reasoning, new_.reasoning);
    StringDiffExactly(prv.content, new_.content);
    ApplyConcat(prv, rs, cs);
    var m := prv.(reasoning := Longer(prv.reasoning, new_.reasoning));
    assert prv.content + "" == prv.content && m.reasoning + "" == m.reasoning;
    assert ApplyAll(prv, rs) == m by {
      if rs != [] { ApplyText(prv, rs[0].reasoning, ""); }
    }
    if cs != [] { ApplyText(m, "", cs[0].content); }
  }

  lemma ApplyCall(m: Msg, newf: ToolCall)
    requires m.calls != [] && CallDiffs(|m.calls| - 1, m.calls[|m.calls| - 1], newf).Ok?
    ensures var k := |m.calls| - 1;
            ApplyAll(m, CallDiffs(k, m.calls[k], newf).value)
            == m.(calls := m.calls[..k] + [MergedCall(m.calls[k], newf)])
  {
    hide StringDiff, ApplyAll, Apply, MergedCall;
    var k := |m.calls| - 1;
    var ds := CallDiffs(k, m.calls[k], newf).value;
    CallDelta(k, m.calls[k], newf);
    if ds == [] {
      ApplyNone(m);
      assert m.calls[..k] + [m.calls[k]] == m.calls;
    } else {
      ApplyOne(m, ds[0]);
      assert ds == [ds[0]];
      ApplyAt(m, ds[0].call);
      assert m.calls[k := MergedCall(m.calls[k], newf)] == m.calls[..k] + [MergedCall(m.calls[k], newf)];
    }
  }

  /** What the delta of a call does to it. */
  lemma CallDelta(k: nat, pref: ToolCall, newf: ToolCall)
    requires CallDiffs(k, pref, newf).Ok?
    ensures var ds := CallDiffs(k, pref, newf).value;
            if ds == [] then MergedCall(pref, newf) == pref
            else
              && |ds| == 1 && ds[0] == Diff("", "", At(k), ds[0].call)
              && Merge(pref, ds[0].call) == MergedCall(pref, newf)
  {
    hide StringDiff;
    StringDiffExactly(pref.arguments, newf.arguments);
    assert pref.arguments + "" == pref.arguments;
  }

  lemma ApplyAt(m: Msg, delta: ToolCall)
    requires m.calls != []
    ensures var k := |m.calls| - 1;
            Apply(m, Diff("", "", At(k), delta)) == m.(calls := m.calls[k := Merge(m.calls[k], delta)])
  {
    assert m.reasoning + "" == m.reasoning && m.content + "" == m.content;
  }

  /** For every two messages: the deltas exist exactly when the update is possible, and then
      the client ends up with the longer texts and the merged last call. */
  lemma DiffsExactly(prv: Msg, new_: Msg)
    ensures Diffs(prv, new_).Ok? <==> Diffable(prv, new_)
    ensures Diffs(prv, new_).Ok? ==> ApplyAll(prv, Diffs(prv, new_).value) == Received(prv, new_)
  {
    StringDiffExactly(prv.reasoning, new_.reasoning);
    StringDiffExactly(prv.content, new_.content);
    var k := |prv.calls|;
    if k > 0 && k <= |new_.calls| {
      StringDiffExactly(prv.calls[k - 1].arguments, new_.calls[k - 1].arguments);
    }
    if Diffs(prv, new_).Ok? {
      DiffsReceived(prv, new_);
    }
  }

  lemma DiffsReceived(prv: Msg, new_: Msg)
    requires Diffs(prv, new_).Ok?
    ensures |prv.calls| <= |new_.calls| && ApplyAll(prv, Diffs(prv, new_).value) == Received(prv, new_)
  {
    hide ReasoningDiffs, ContentDiffs, CallDiffs, NewCalls, Apply, ApplyAll, Longer, MergedCall;
    var k := |prv.calls|;
    var texts := ReasoningDiffs(prv, new_).value + ContentDiffs(prv, new_).value;
    var last: seq<Diff> := if k == 0 then [] else CallDiffs(k - 1, prv.calls[k - 1], new_.calls[k - 1]).value;
    ApplyTexts(prv, new_);
    var m1 := ApplyAll(prv, texts);
    ApplyConcat(prv, texts + last, NewCalls(new_.calls, k));
    ApplyConcat(prv, texts, last);
    if k > 0 {
      ApplyCall(m1, new_.calls[k - 1]);
    } else {
      ApplyNone(m1);
    }
    ApplyNewCalls(ApplyAll(m1, last), new_.calls, k);
  }

  lemma ApplyNone(m: Msg)
    ensures ApplyAll(m, []) == m
  {
  }

  /** What the next reading must keep for the client to stay in step. */
  predicate Extends(prv: Msg, new_: Msg) {
    && prv.reasoning <= new_.reasoning
    && prv.content <= new_.content
    && |prv.calls| <= |new_.calls|
    && (prv.calls != [] ==>
          var k := |prv.calls| - 1;
          && prv.calls[..k] == new_.calls[..k]
          && prv.calls[k].arguments <= new_.calls[k].arguments
          && prv.calls[k].name <= new_.calls[k].name
          && (new_.calls[k].id == "" ==> prv.calls[k].id == ""))
  }

  lemma LongerIs(a: string, b: string)
    requires a <= b || b <= a
    ensures Longer(a, b) == b <==> a <= b
  {
  }

  /** For every two messages: the client reproduces the new message exactly when nothing it
      already has was taken back. */
  lemma ReconstructsExactly(prv: Msg, new_: Msg)
    ensures (Diffs(prv, new_).Ok? && ApplyAll(prv, Diffs(prv, new_).value) == new_) <==> Extends(prv, new_)
  {
    DiffsExactly(prv, new_);
    if Diffable(prv, new_) {
      LongerIs(prv.reasoning, new_.reasoning);
      LongerIs(prv.content, new_.content);
      ReceivedCalls(prv, new_);
    }
  }

  lemma ReceivedCalls(prv: Msg, new_: Msg)
    requires Diffable(prv, new_)
    ensures Received(prv, new_).calls == new_.calls <==>
              (prv.calls != [] ==>
                 var k := |prv.calls| - 1;
                 && prv.calls[..k] == new_.calls[..k]
                 && prv.calls[k].arguments <= new_.calls[k].arguments
                 && (new_.calls[k].name == "" ==> prv.calls[k].name == "")
                 && (new_.calls[k].id == "" ==> prv.calls[k].id == ""))
  {
    if prv.calls != [] {
      var k := |prv.calls| - 1;
      var pref, newf := prv.calls[k], new_.calls[k];
      LongerIs(pref.arguments, newf.arguments);
      var calls := prv.calls[..k] + [MergedCall(pref, newf)] + new_.calls[k + 1..];
      assert calls[..k] == prv.calls[..k] && calls[k] == MergedCall(pref, newf);
      assert calls[k + 1..] == new_.calls[k + 1..];
      assert new_.calls == new_.calls[..k] + [newf] + new_.calls[k + 1..];
    }
  }

  // ----- whole streams -----

  /** Every reading in the stream extends the one before it. */
  predicate Stream(ms: seq<Msg>) {
    forall i :: 0 < i < |ms| ==> Extends(ms[i - 1], ms[i])
  }

  /** The client sees only the deltas between neighbours. */
  function ReceiveAll(client: Msg, ms: seq<Msg>): Outcome<Msg>
    requires ms != []
    decreases |ms|
  {
    if |ms| == 1 then Ok(client)
    else match Diffs(ms[0], ms[1])
         case Err(e) => Err(e)
         case Ok(ds) => ReceiveAll(ApplyAll(client, ds), ms[1..])
  }

  /** Over a whole stream no delta computation fails and the client, starting from the first
      reading, ends with the last one. */
  lemma {:induction false} StreamDelivered(ms: seq<Msg>)
    requires ms != [] && Stream(ms)
    ensures ReceiveAll(ms[0], ms) == Ok(ms[|ms| - 1])
    decreases |ms|
  {
    if |ms| > 1 {
      assert Extends(ms[0], ms[1]);
      ReconstructsExactly(ms[0], ms[1]);
      forall i | 0 < i < |ms[1..]| ensures Extends(ms[1..][i - 1], ms[1..][i]) {
        assert Extends(ms[i], ms[i + 1]);
      }
      StreamDelivered(ms[1..]);
    }
  }

  // ----- stable tool call ids -----

  /** Ids once given to a position are kept; a new position takes the call's own id, or one
      from the generator, whose n-th answer is `gen(n)`. */
  function StampIds(calls: seq<ToolCall>, cache: seq<string>, gen: nat -> string): (r: (seq<ToolCall>, seq<string>))
    ensures |r.0| == |calls| && cache <= r.1 && |r.1| == if |calls| > |cache| then |calls| else |cache|
    ensures forall i :: 0 <= i < |calls| ==> r.0[i] == calls[i].(id := r.1[i])
    ensures forall i :: |cache| <= i < |calls| ==> r.1[i] == if calls[i].id != "" then calls[i].id else gen(i)
  {
    var grown := cache + seq(if |calls| > |cache| then |calls| - |cache| else 0,
                             j requires 0 <= j < |calls| - |cache| =>
                               var c := calls[|cache| + j]; if c.id != "" then c.id else gen(|cache| + j));
    (seq(|calls|, i requires 0 <= i < |calls| => calls[i].(id := grown[i])), grown)
  }

  /** The loop of the source, which grows the cache and overwrites the ids as it goes. */
  method SetToolCallIds(calls: seq<ToolCall>, cache: seq<string>, gen: nat -> string)
    returns (stamped: seq<ToolCall>, ids: seq<string>)
    ensures (stamped, ids) == StampIds(calls, cache, gen)
  {
    stamped, ids := calls, cache;
    var i := 0;
    while i < |stamped|
      invariant 0 <= i <= |stamped| == |calls|
      invariant cache <= ids && |ids| == if i > |cache| then i else |cache|
      invariant forall j :: |cache| <= j < |ids| ==> ids[j] == if calls[j].id != "" then calls[j].id else gen(j)
      invariant forall j :: 0 <= j < i ==> stamped[j] == calls[j].(id := ids[j])
      invariant forall j :: i <= j < |calls| ==> stamped[j] == calls[j]
    {
      if |ids| <= i {
        var id := stamped[i].id;
        if id == "" {
          id := gen(i);
        }
        ids := ids + [id];
      }
      stamped := stamped[i := stamped[i].(id := ids[i])];
      i := i + 1;
    }
    assert ids == StampIds(calls, cache, gen).1;
    assert stamped == StampIds(calls, cache, gen).0;
  }

  /** Growth of a message whose ids are not settled yet. */
  predicate Grew(prv: Msg, new_: Msg) {
    && prv.reasoning <= new_.reasoning
    && prv.content <= new_.content
    && |prv.calls| <= |new_.calls|
    && (forall i :: 0 <= i < |prv.calls| - 1 ==>
          prv.calls[i].name == new_.calls[i].name && prv.calls[i].arguments == new_.calls[i].arguments)
    && (prv.calls != [] ==>
          var k := |prv.calls| - 1;
          prv.calls[k].name <= new_.calls[k].name && prv.calls[k].arguments <= new_.calls[k].arguments)
  }

  lemma GrewTransitive(a: Msg, b: Msg, c: Msg)
    requires Grew(a, b) && Grew(b, c)
    ensures Grew(a, c)
  {
    PrefixTransitive(a.reasoning, b.reasoning, c.reasoning);
    PrefixTransitive(a.content, b.content, c.content);
  }

  /** With the id cache between two readings, a call keeps the id it was first shown with, so
      growth up to ids becomes growth. */
  lemma StampedExtends(prv: Msg, new_: Msg, cache: seq<string>, gen: nat -> string)
    requires Grew(prv, new_)
    ensures var (calls1, cache1) := StampIds(prv.calls, cache, gen);
            var (calls2, cache2) := StampIds(new_.calls, cache1, gen);
            Extends(prv.(calls := calls1), new_.(calls := calls2))
  {
    hide StampIds;
    var (calls1, cache1) := StampIds(prv.calls, cache, gen);
    var (calls2, cache2) := StampIds(new_.calls, cache1, gen);
    forall i | 0 <= i < |calls1| ensures calls1[i].id == calls2[i].id {
      assert cache1[i] == cache2[i];
    }
    forall i | 0 <= i < |calls1| - 1 ensures calls1[i] == calls2[i] {
    }
  }

  /** Readings of one growing message, each stamped with the cache its predecessors left. */
  function StampAll(ms: seq<Msg>, cache: seq<string>, gen: nat -> string): (r: seq<Msg>)
    ensures |r| == |ms|
    decreases |ms|
  {
    if ms == [] then []
    else
      var (calls, ids) := StampIds(ms[0].calls, cache, gen);
      [ms[0].(calls := calls)] + StampAll(ms[1..], ids, gen)
  }

  lemma {:induction false} StampedStream(ms: seq<Msg>, cache: seq<string>, gen: nat -> string)
    requires forall i :: 0 < i < |ms| ==> Grew(ms[i - 1], ms[i])
    ensures Stream(StampAll(ms, cache, gen))
    decreases |ms|
  {
    if |ms| > 1 {
      var (calls, ids) := StampIds(ms[0].calls, cache, gen);
      var rest := StampAll(ms[1..], ids, gen);
      forall i | 0 < i < |ms[1..]| ensures Grew(ms[1..][i - 1], ms[1..][i]) {
        assert Grew(ms[i], ms[i + 1]);
      }
      StampedStream(ms[1..], ids, gen);
      assert Grew(ms[0], ms[1]);
      StampedExtends(ms[0], ms[1], cache, gen);
      var all := StampAll(ms, cache, gen);
      assert all == [ms[0].(calls := calls)] + rest;
      assert rest[0] == ms[1].(calls := StampIds(ms[1].calls, ids, gen).0);
      forall i | 0 < i < |all| ensures Extends(all[i - 1], all[i]) {
        if i > 1 {
          assert all[i - 1] == rest[i - 2] && all[i] == rest[i - 1];
        }
      }
    }
  }
}
