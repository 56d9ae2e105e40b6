/** Streaming through the general mapper: the message read from a cut parse tree grows into
    the message read from the full one, so the deltas between the readings never fail. */
module PegStream {
  import opened JsonText
  import opened Wrappers
  import opened Ast
  import opened ChatDiff
  import opened Mapper
  import Normalize

  // ----- nodes that the mapper ignores -----

  predicate Opens(text: string) {
    var t := TrimTrailing(text);
    t != "" && t[0] == '{'
  }

  predicate Active(e: Event) {
    || e.kind in {Reasoning, Content, ToolOpen, ToolClose, ToolId, ToolName, ArgOpen, ArgClose, ArgName, ArgValue,
                  ArgStringValue}
    || (e.kind == ToolArgs && Opens(e.text))
  }

  predicate AllActive(es: seq<Event>) {
    forall i :: 0 <= i < |es| ==> Active(es[i])
  }

  function Effective(es: seq<Event>): (r: seq<Event>)
    ensures AllActive(r)
  {
    if es == [] then [] else (if Active(es[0]) then [es[0]] else []) + Effective(es[1..])
  }

  lemma EffectiveStep(es: seq<Event>)
    requires es != []
    ensures Effective(es) == (if Active(es[0]) then [es[0]] else []) + Effective(es[1..])
  {
    hide Active;
  }

  lemma {:induction false} EffectiveConcat(a: seq<Event>, b: seq<Event>)
    ensures Effective(a + b) == Effective(a) + Effective(b)
    decreases |a|
  {
    hide Active;
    if a == [] {
      assert a + b == b;
    } else {
      EffectiveConcat(a[1..], b);
      assert (a + b)[1..] == a[1..] + b && (a + b)[0] == a[0];
      EffectiveStep(a);
      EffectiveStep(a + b);
      hide Effective;
      var first := if Active(a[0]) then [a[0]] else [];
      assert first + (Effective(a[1..]) + Effective(b)) == first + Effective(a[1..]) + Effective(b);
    }
  }

  lemma Ignored(s: State, e: Event)
    requires Inv(s) && !Active(e)
    ensures Step(s, e) == s
  {
  }

  lemma {:induction false} RunEffective(s: State, es: seq<Event>)
    requires Inv(s)
    ensures Run(s, es) == Run(s, Effective(es))
    decreases |es|
  {
    hide Step, Active;
    if es != [] {
      StepKeepsInv(s, es[0]);
      RunEffective(Step(s, es[0]), es[1..]);
      if Active(es[0]) {
        assert Effective(es)[0] == es[0] && Effective(es)[1..] == Effective(es[1..]);
      } else {
        Ignored(s, es[0]);
        assert Effective(es) == Effective(es[1..]);
      }
    }
  }

  // ----- from trees to events -----

  function TreeEvents(cs: seq<Node>): seq<Event> { Effective(Events(cs)) }

  lemma TreeEventsCons(cs: seq<Node>)
    requires cs != []
    ensures var e := Event(cs[0].kind, cs[0].text);
            TreeEvents(cs) == (if Active(e) then [e] else []) + TreeEvents(cs[0].children) + TreeEvents(cs[1..])
  {
    hide Active;
    var e := Event(cs[0].kind, cs[0].text);
    EffectiveConcat([e] + Events(cs[0].children), Events(cs[1..]));
    EffectiveConcat([e], Events(cs[0].children));
    assert [e][1..] == [];
  }

  /** Nodes whose text is used whole: they carry no other nodes that matter. */
  predicate TextNode(k: Label) {
    k in {Reasoning, Content, ArgValue, ArgStringValue}
  }

  predicate Leafy(n: Node)
    decreases n, 1
  {
    if TextNode(n.kind) || (n.kind == ToolArgs && Opens(n.text)) then TreeEvents(n.children) == []
    else AllLeafy(n.children)
  }

  predicate AllLeafy(cs: seq<Node>)
    decreases cs, 0
  {
    forall i :: 0 <= i < |cs| ==> Leafy(cs[i])
  }

  /** `b` continues `a`; only the last event of `a` may be an early, shorter one. */
  ghost predicate EventsGrow(a: seq<Event>, b: seq<Event>) {
    || a <= b
    || (&& a != [] && |a| <= |b|
        && a[..|a| - 1] == b[..|a| - 1]
        && EventCut(a[|a| - 1], b[|a| - 1]))
  }

  predicate EventCut(x: Event, y: Event) {
    x.kind == y.kind && x.text <= y.text && (TextNode(x.kind) || x.kind == ToolArgs)
  }

  lemma GrowPrepend(c: seq<Event>, a: seq<Event>, b: seq<Event>)
    requires EventsGrow(a, b)
    ensures EventsGrow(c + a, c + b)
  {
    if !(a <= b) {
      var k := |a| - 1;
      assert (c + a)[..|c| + k] == c + a[..k] == c + b[..k] == (c + b)[..|c| + k];
    }
  }

  lemma GrowAppend(a: seq<Event>, b: seq<Event>, more: seq<Event>)
    requires EventsGrow(a, b)
    ensures EventsGrow(a, b + more)
  {
    if !(a <= b) {
      assert (b + more)[..|a| - 1] == b[..|a| - 1];
    }
  }

  /** Nothing that matters in a forest: nothing that matters in any cut of it. */
  lemma {:induction false} CutOfNothing(ts: seq<Node>, ns: seq<Node>)
    requires CutForest(ts, ns) && TreeEvents(ns) == []
    ensures TreeEvents(ts) == []
    decreases ns
  {
    hide TreeEvents;
    if ts == [] {
      NoEvents();
    } else {
      CutFront(ts, ns);
      TreeEventsCons(ts);
      TreeEventsCons(ns);
      CutOfNothing(ts[1..], ns[1..]);
      if ts[0] != ns[0] {
        CutOfNothing(ts[0].children, ns[0].children);
        if ts[0].kind == ToolArgs && Opens(ts[0].text) { OpensPrefix(ts[0].text, ns[0].text); }
      }
    }
  }

  lemma NoEvents()
    ensures TreeEvents([]) == []
  {
  }

  lemma NothingGrows(es: seq<Event>)
    ensures EventsGrow([], es)
  {
  }

  lemma OpensPrefix(x: string, y: string)
    requires x <= y && Opens(x)
    ensures Opens(y)
  {
    TrimPrefix(x, y);
  }

  /** The events of a cut forest are early events of the forest. */
  lemma {:induction false} ForestEventsGrow(ts: seq<Node>, ns: seq<Node>)
    requires CutForest(ts, ns) && AllLeafy(ns)
    ensures EventsGrow(TreeEvents(ts), TreeEvents(ns))
    decreases ns, 0
  {
    hide TreeEvents, Active, EventsGrow, Leafy;
    if ts == [] {
      NoEvents();
      NothingGrows(TreeEvents(ns));
    } else {
      CutFront(ts, ns);
      TreeEventsCons(ts);
      TreeEventsCons(ns);
      assert Leafy(ns[0]);
      hide CutForest;
      ForestEventsGrow(ts[1..], ns[1..]);
      if ts[0] == ns[0] {
        var e := Event(ns[0].kind, ns[0].text);
        GrowPrepend((if Active(e) then [e] else []) + TreeEvents(ns[0].children),
                    TreeEvents(ts[1..]), TreeEvents(ns[1..]));
      } else {
        NoEvents();
        assert ts[1..] == [];
        var x := Event(ts[0].kind, ts[0].text);
        assert TreeEvents(ts) == (if Active(x) then [x] else []) + TreeEvents(ts[0].children);
        NodeEventsGrow(ts[0], ns[0], TreeEvents(ns[1..]));
      }
    }
  }

  lemma {:induction false} NodeEventsGrow(t: Node, n: Node, more: seq<Event>)
    requires Cut(t, n) && Leafy(n)
    ensures var (x, y) := (Event(t.kind, t.text), Event(n.kind, n.text));
            EventsGrow((if Active(x) then [x] else []) + TreeEvents(t.children),
                       (if Active(y) then [y] else []) + TreeEvents(n.children) + more)
    decreases n, 1
  {
    hide TreeEvents, Opens, CutForest;
    var (x, y) := (Event(t.kind, t.text), Event(n.kind, n.text));
    if TextNode(n.kind) || (n.kind == ToolArgs && Opens(n.text)) {
      CutOfNothing(t.children, n.children);
      if Active(x) {
        assert EventsGrow([x], [y] + more) by { assert [x][..0] == ([y] + more)[..0]; }
        assert [x] + [] == [x] && [y] + [] + more == [y] + more;
      }
    } else {
      if n.kind == ToolArgs && Opens(t.text) { OpensPrefix(t.text, n.text); }
      ForestEventsGrow(t.children, n.children);
      GrowAppend(TreeEvents(t.children), TreeEvents(n.children), more);
      assert [] + TreeEvents(t.children) == TreeEvents(t.children);
      assert [] + TreeEvents(n.children) + more == TreeEvents(n.children) + more;
    }
  }

  // ----- steps that only add -----

  /** The pointer is at a call of the message that has a name, so that arguments go to the message. */
  predicate Shown(s: State)
    requires Inv(s)
  {
    s.current.InResult? && s.msg.calls[s.current.i].name != ""
  }

  /** What a format must do for the client to keep up: rename a call of the message only to a longer
      name, and replace its arguments, from a node or from the buffer, only by a continuation. */
  predicate SafeStep(s: State, e: Event)
    requires Inv(s)
  {
    s.current.InResult? ==>
      var c := s.msg.calls[s.current.i];
      && (e.kind == ToolName ==> c.name <= TrimTrailing(e.text) && (s.buffer != "" ==> c.arguments <= s.buffer))
      && (e.kind == ToolArgs && Opens(e.text) && Shown(s) ==> c.arguments <= TrimTrailing(e.text))
      && (e.kind == ToolClose && s.buffer != "" ==> c.arguments <= Repaired(s.buffer, s.quoteOpen))
  }

  predicate SafeRun(s: State, es: seq<Event>)
    requires Inv(s)
    decreases |es|
  {
    es == [] || (SafeStep(s, es[0]) && (StepKeepsInv(s, es[0]); SafeRun(Step(s, es[0]), es[1..])))
  }

  /** Only the arguments of a call that is shown are seen. */
  lemma TargetExactly(s: State, t: string, u: string, q: bool)
    requires Inv(s) && s.current != Nowhere
    ensures Grew(SetTarget(s, t).(quoteOpen := q).msg, SetTarget(s, u).(quoteOpen := q).msg) <==> !Shown(s) || t <= u
    ensures Grew(s.msg, SetTarget(s, u).msg) <==> !Shown(s) || Target(s) <= u
  {
  }

  lemma ArgNameGrows(s: State, text: string)
    requires Inv(s) && s.current != Nowhere
    ensures Grew(s.msg, OnArgName(s, text).msg)
  {
    hide Dump, SetTarget, Target, Trim, Inv, Shown;
    var u := (if Target(s) == "" then "{" else Target(s)) +
             ((if s.argCount > 0 then "," else "") + Dump(Trim(text)) + ":");
    assert Target(s) <= u;
    TargetExactly(s, u, u, false);
  }

  lemma RepairedGrows(arguments: string, quoteOpen: bool)
    ensures arguments <= Repaired(arguments, quoteOpen)
  {
    hide Scan, Closers;
    var a := arguments + if quoteOpen then "\"" else "";
    assert arguments <= a <= Repaired(arguments, quoteOpen);
  }

  lemma CloseExactly(s: State)
    requires Inv(s) && s.current != Nowhere
    ensures Grew(s.msg, OnClose(s).msg) <==>
            s.current.InResult? && s.buffer != "" ==>
              s.msg.calls[s.current.i].arguments <= Repaired(s.buffer, s.quoteOpen)
  {
    hide Repaired;
    RepairedGrows(Current(s).arguments, s.quoteOpen);
  }

  lemma NameExactly(s: State, text: string)
    requires Inv(s) && s.current != Nowhere
    ensures Grew(s.msg, OnName(s, text).msg) <==>
            s.current.InResult? ==>
              var c := s.msg.calls[s.current.i];
              c.name <= TrimTrailing(text) && (s.buffer != "" ==> c.arguments <= s.buffer)
  {
    hide TrimTrailing;
  }

  lemma AppendGrows(s: State, piece: string)
    requires Inv(s) && s.current != Nowhere
    ensures Grew(s.msg, SetTarget(s, Target(s) + piece).msg)
  {
    hide SetTarget, Target, Inv, Shown, Grew;
    TargetExactly(s, Target(s) + piece, Target(s) + piece, false);
  }

  lemma ArgumentStepGrows(s: State, e: Event)
    requires Inv(s) && s.current != Nowhere && e.kind in {ArgName, ArgStringValue, ArgValue, ArgClose}
    ensures Grew(s.msg, Step(s, e).msg)
  {
    hide Normalize.Norm, SetTarget, OnArgName, Target, StringPiece, Inv, Grew;
    ArgNameGrows(s, e.text);
    AppendGrows(s, StringPiece(s.quoteOpen, e.text));
    AppendGrows(s, Normalize.Norm(e.text));
    AppendGrows(s, "\"");
    GrewReflexive(s.msg);
  }

  /** All other steps only add. */
  lemma PlainStepGrows(s: State, e: Event)
    requires Inv(s) && (s.current == Nowhere || e.kind !in {ToolName, ToolArgs, ToolClose})
    ensures Grew(s.msg, Step(s, e).msg)
  {
    if s.current != Nowhere && e.kind in {ArgName, ArgStringValue, ArgValue, ArgClose} {
      hide Step, Grew;
      ArgumentStepGrows(s, e);
    } else if s.current != Nowhere && e.kind == ToolId {
      IdStepGrows(s, e);
    } else {
      OutsideStepGrows(s, e);
    }
  }

  lemma IdStepGrows(s: State, e: Event)
    requires Inv(s) && s.current != Nowhere && e.kind == ToolId
    ensures Grew(s.msg, Step(s, e).msg)
  {
    hide IdText;
  }

  lemma OutsideStepGrows(s: State, e: Event)
    requires Inv(s)
    requires s.current == Nowhere ||
             e.kind !in {ToolId, ToolName, ToolArgs, ToolClose, ArgName, ArgStringValue, ArgValue, ArgClose}
    ensures Grew(s.msg, Step(s, e).msg)
  {
    hide Grew;
    GrewReflexive(s.msg);
    GrewTexts(s.msg, s.msg.reasoning + e.text, s.msg.content + e.text);
  }

  lemma GrewTexts(m: Msg, reasoning: string, content: string)
    requires m.reasoning <= reasoning && m.content <= content
    ensures Grew(m, m.(reasoning := reasoning)) && Grew(m, m.(content := content))
  {
  }

  lemma CallSteps(s: State, e: Event)
    requires Inv(s) && s.current != Nowhere && e.kind in {ToolName, ToolArgs, ToolClose}
    ensures Step(s, e) == if e.kind == ToolName then OnName(s, e.text)
                          else if e.kind == ToolClose then OnClose(s)
                          else if Opens(e.text) then SetTarget(s, TrimTrailing(e.text)) else s
  {
    hide OnName, OnClose, SetTarget, TrimTrailing;
  }

  lemma GrewReflexive(m: Msg)
    ensures Grew(m, m)
  {
  }

  /** From every state: a step is safe exactly when it only adds to the message. */
  lemma StepGrowsExactly(s: State, e: Event)
    requires Inv(s)
    ensures Inv(Step(s, e)) && (SafeStep(s, e) <==> Grew(s.msg, Step(s, e).msg))
  {
    hide Step, OnName, OnClose, SetTarget, TrimTrailing, Grew, Opens, Repaired;
    StepKeepsInv(s, e);
    if s.current != Nowhere && e.kind in {ToolName, ToolArgs, ToolClose} {
      CallSteps(s, e);
      NameExactly(s, e.text);
      CloseExactly(s);
      TargetExactly(s, TrimTrailing(e.text), TrimTrailing(e.text), false);
      GrewReflexive(s.msg);
    } else {
      PlainStepGrows(s, e);
    }
  }

  lemma SafeStepGrows(s: State, e: Event)
    requires Inv(s) && SafeStep(s, e)
    ensures Inv(Step(s, e)) && Grew(s.msg, Step(s, e).msg)
  {
    hide Step, SafeStep;
    StepGrowsExactly(s, e);
  }

  /** Event `k` of the run only adds to the message. */
  predicate GrowsAt(s: State, es: seq<Event>, k: nat)
    requires Inv(s) && k < |es|
  {
    Grew(Run(s, es[..k]).msg, Run(s, es[..k + 1]).msg)
  }

  lemma SafeRunLast(s: State, es: seq<Event>)
    requires Inv(s) && es != []
    ensures var k := |es| - 1; SafeRun(s, es) <==> SafeRun(s, es[..k]) && SafeStep(Run(s, es[..k]), es[k])
    decreases |es|
  {
    hide Step, SafeStep, Inv;
    var k := |es| - 1;
    StepKeepsInv(s, es[0]);
    if k > 0 {
      SafeRunLast(Step(s, es[0]), es[1..]);
      assert es[1..][..k - 1] == es[..k][1..];
    } else {
      assert es[1..] == [];
    }
  }

  lemma GrowsAtPrefix(s: State, es: seq<Event>, i: nat)
    requires Inv(s) && i < |es| - 1
    ensures GrowsAt(s, es[..|es| - 1], i) <==> GrowsAt(s, es, i)
  {
    hide Run, Inv, Grew;
    var rest := es[..|es| - 1];
    assert rest[..i] == es[..i] && rest[..i + 1] == es[..i + 1];
  }

  /** Safe runs are exactly those that the client can follow after every event. */
  lemma {:induction false} SafeRunExactly(s: State, es: seq<Event>)
    requires Inv(s)
    ensures SafeRun(s, es) <==> forall k :: 0 <= k < |es| ==> GrowsAt(s, es, k)
    decreases |es|
  {
    if es == [] {
    } else {
      hide Step, SafeStep, SafeRun, Run, GrowsAt, Inv;
      var k := |es| - 1;
      var rest := es[..k];
      forall i | 0 <= i < k ensures GrowsAt(s, rest, i) <==> GrowsAt(s, es, i) {
        GrowsAtPrefix(s, es, i);
      }
      SafeRunExactly(s, rest);
      SafeRunLast(s, es);
      GrowsLast(s, es);
    }
  }

  lemma GrowsLast(s: State, es: seq<Event>)
    requires Inv(s) && es != []
    ensures var k := |es| - 1; SafeStep(Run(s, es[..k]), es[k]) <==> GrowsAt(s, es, k)
  {
    hide Step, SafeStep, Inv, Run, Grew;
    var k := |es| - 1;
    RunLast(s, es);
    assert es[..k + 1] == es;
    StepGrowsExactly(Run(s, es[..k]), es[k]);
  }

  lemma {:induction false} SafeRunGrows(s: State, es: seq<Event>)
    requires Inv(s) && SafeRun(s, es)
    ensures Grew(s.msg, Run(s, es).msg)
    decreases |es|
  {
    hide Step, SafeStep;
    if es == [] {
      GrewReflexive(s.msg);
    } else {
      SafeStepGrows(s, es[0]);
      SafeRunGrows(Step(s, es[0]), es[1..]);
      GrewTransitive(s.msg, Step(s, es[0]).msg, Run(s, es).msg);
    }
  }

  // ----- the last, cut event -----

  /** For a call that is shown, a raw value must be cut where its continuation is harmless for the
      normaliser, and an empty string node must not follow an open one. */
  predicate SafeCut(s: State, x: Event, y: Event)
    requires Inv(s) && x.text <= y.text
  {
    Shown(s) ==>
      && (y.kind == ArgValue ==>
            Normalize.Harmless(Normalize.TailOf(x.text, true, Normalize.Out), y.text[|x.text|..]))
      && (y.kind == ArgStringValue ==> x.text != "" || !s.quoteOpen || y.text == "")
  }

  lemma EscapeStart(y: string)
    requires y != ""
    ensures Escape(y) != "" && Escape(y)[0] != '"'
  {
    assert EscapeChar(y[0]) != "" && EscapeChar(y[0])[0] != '"';
  }

  lemma PieceExactly(open: bool, x: string, y: string)
    requires x <= y
    ensures StringPiece(open, x) <= StringPiece(open, y) <==> x != "" || !open || y == ""
  {
    EscapePrefix(x, y);
    AppendBoth(if open then "" else "\"", Escape(x), Escape(y), "");
    if y != "" {
      EscapeStart(y);
      hide Escape;
      assert "\"" <= "\"" + Escape(y);
      assert x == "" ==> StringPiece(open, x) == "\"" && (open ==> StringPiece(open, y)[0] != '"');
    }
  }

  /** What is added to the arguments. */
  lemma AddedExactly(s: State, u: string, v: string, q: bool)
    requires Inv(s) && s.current != Nowhere
    ensures Grew(SetTarget(s, Target(s) + u).(quoteOpen := q).msg, SetTarget(s, Target(s) + v).(quoteOpen := q).msg)
            <==> !Shown(s) || u <= v
  {
    hide SetTarget, Target, Grew, Inv, Shown;
    PrefixCancel(Target(s), u, v);
    TargetExactly(s, Target(s) + u, Target(s) + v, q);
  }

  lemma ValueSteps(s: State, text: string)
    requires Inv(s) && s.current != Nowhere
    ensures Step(s, Event(ArgStringValue, text)) ==
            SetTarget(s, Target(s) + StringPiece(s.quoteOpen, text)).(quoteOpen := true)
    ensures Step(s, Event(ArgValue, text)) ==
            SetTarget(s, Target(s) + Normalize.Norm(text)).(quoteOpen := s.quoteOpen)
  {
    hide StringPiece, Normalize.Norm, SetTarget, Target;
  }

  lemma TextSteps(s: State, x: Event, y: Event)
    requires Inv(s) && EventCut(x, y) && (s.current == Nowhere || x.kind in {Reasoning, Content})
    ensures Grew(Step(s, x).msg, Step(s, y).msg)
  {
    if x.kind == Reasoning {
      AppendBoth(s.msg.reasoning, x.text, y.text, "");
    } else if x.kind == Content {
      AppendBoth(s.msg.content, x.text, y.text, "");
    }
  }

  lemma ArgumentsCut(s: State, x: Event, y: Event)
    requires Inv(s) && s.current != Nowhere && EventCut(x, y) && x.kind == ToolArgs && Active(x)
    ensures Grew(Step(s, x).msg, Step(s, y).msg)
  {
    hide SetTarget, TrimTrailing, Grew, Step;
    CallSteps(s, x);
    CallSteps(s, y);
    TrimPrefix(x.text, y.text);
    OpensPrefix(x.text, y.text);
    TargetExactly(s, TrimTrailing(x.text), TrimTrailing(y.text), s.quoteOpen);
  }

  /** From every state: the early form of an event leads to a message that the full form continues
      exactly when it is cut safely. */
  lemma CutStepGrowsExactly(s: State, x: Event, y: Event)
    requires Inv(s) && EventCut(x, y) && Active(x)
    ensures Inv(Step(s, x)) && (Grew(Step(s, x).msg, Step(s, y).msg) <==> SafeCut(s, x, y))
  {
    hide Normalize.Norm, Normalize.TailOf, Normalize.Harmless, Step, TrimTrailing, StringPiece, SetTarget, Target, Grew;
    StepKeepsInv(s, x);
    if s.current == Nowhere || x.kind in {Reasoning, Content} {
      TextSteps(s, x, y);
    } else if x.kind == ToolArgs {
      ArgumentsCut(s, x, y);
    } else {
      ValueSteps(s, x.text);
      ValueSteps(s, y.text);
      if x.kind == ArgStringValue {
        PieceExactly(s.quoteOpen, x.text, y.text);
        AddedExactly(s, StringPiece(s.quoteOpen, x.text), StringPiece(s.quoteOpen, y.text), true);
      } else {
        Normalize.StreamedPrefixExactly(x.text, y.text);
        AddedExactly(s, Normalize.Norm(x.text), Normalize.Norm(y.text), s.quoteOpen);
      }
    }
  }

  // ----- two readings -----

  /** `a` leads to a message that the message of `b` continues: `b` is safe throughout and, if
      the last event of `a` is an early one, it is cut safely. */
  predicate SafeGrowth(s: State, a: seq<Event>, b: seq<Event>)
    requires Inv(s)
  {
    && SafeRun(s, b)
    && (!(a <= b) ==>
          a != [] && |a| <= |b| &&
          var k := |a| - 1;
          a[k].text <= b[k].text && SafeCut(Run(s, b[..k]), a[k], b[k]))
  }

  lemma {:induction false} SafeSplit(s: State, b: seq<Event>, k: nat)
    requires Inv(s) && SafeRun(s, b) && k <= |b|
    ensures Inv(Run(s, b[..k])) && SafeRun(Run(s, b[..k]), b[k..])
    decreases k
  {
    hide Step, SafeStep;
    if k > 0 {
      SafeStepGrows(s, b[0]);
      SafeSplit(Step(s, b[0]), b[1..], k - 1);
      assert b[..k][1..] == b[1..][..k - 1] && b[1..][k - 1..] == b[k..];
    }
  }

  lemma GrowthOfRuns(s: State, a: seq<Event>, b: seq<Event>)
    requires Inv(s) && EventsGrow(a, b) && SafeGrowth(s, a, b)
    requires AllActive(a)
    ensures Grew(Run(s, a).msg, Run(s, b).msg)
  {
    hide Step, SafeStep, SafeRun, SafeCut, Active, Run, Grew, EventCut;
    var k := if a <= b then |a| else |a| - 1;
    SafeSplit(s, b, k);
    RunDivided(s, b, k);
    if a <= b {
      assert b[..k] == a;
      SafeRunGrows(Run(s, a), b[k..]);
    } else {
      RunLast(s, a);
      assert b[k..][0] == b[k];
      CutThenMore(Run(s, b[..k]), a[k], b[k..]);
    }
  }

  lemma RunLast(s: State, a: seq<Event>)
    requires Inv(s) && a != []
    ensures var k := |a| - 1; Run(s, a) == Step(Run(s, a[..k]), a[k])
  {
    hide Step, Inv;
    var k := |a| - 1;
    assert a == a[..k] + [a[k]] && [a[k]][1..] == [];
    RunConcat(s, a[..k], [a[k]]);
    StepKeepsInv(Run(s, a[..k]), a[k]);
  }

  /** Everything after a cut event, in the longer run. */
  lemma CutThenMore(s: State, x: Event, b: seq<Event>)
    requires Inv(s) && b != [] && SafeRun(s, b) && EventCut(x, b[0]) && Active(x) && SafeCut(s, x, b[0])
    ensures Inv(Step(s, x)) && Grew(Step(s, x).msg, Run(s, b).msg)
  {
    hide Step, SafeStep, SafeCut, Active, EventCut, Grew;
    CutStepGrowsExactly(s, x, b[0]);
    SafeStepGrows(s, b[0]);
    SafeRunGrows(Step(s, b[0]), b[1..]);
    GrewTransitive(Step(s, x).msg, Step(s, b[0]).msg, Run(s, b).msg);
  }

  /** The longer run, divided where the shorter one is cut. */
  lemma RunDivided(s: State, b: seq<Event>, k: nat)
    requires Inv(s) && k <= |b|
    ensures Run(s, b) == Run(Run(s, b[..k]), b[k..])
  {
    hide Step, Inv;
    assert b == b[..k] + b[k..];
    RunConcat(s, b[..k], b[k..]);
  }

  // ----- every stream of one list of events -----

  /** `x` is `y`, or an early form of it that the mapper takes notice of. */
  predicate Early(x: Event, y: Event) {
    x == y || (EventCut(x, y) && Active(x))
  }

  /** An early stretch of the events. */
  ghost predicate Arrives(a: seq<Event>, es: seq<Event>) {
    EventsGrow(a, es) && AllActive(a)
  }

  /** The event is safe in every form in which it may arrive. */
  ghost predicate SafeForms(s: State, e: Event)
    requires Inv(s)
  {
    forall y :: Early(y, e) ==>
      SafeStep(s, y) && forall x :: Early(x, y) ==> x.text <= y.text && SafeCut(s, x, y)
  }

  ghost predicate SafeEverywhere(s: State, es: seq<Event>)
    requires Inv(s)
  {
    forall k {:trigger es[k]} :: 0 <= k < |es| ==> SafeForms(Run(s, es[..k]), es[k])
  }

  /** Whatever arrives first is continued by whatever arrives later. */
  ghost predicate Followed(s: State, es: seq<Event>)
    requires Inv(s)
  {
    forall a, b :: Arrives(b, es) && Arrives(a, b) ==> Grew(Run(s, a).msg, Run(s, b).msg)
  }

  lemma ArrivesAt(a: seq<Event>, es: seq<Event>, k: nat)
    requires Arrives(a, es) && k < |a|
    ensures |a| <= |es| && a[..k] == es[..k] && Early(a[k], es[k])
  {
    hide Active, EventCut;
    assert a <= es ==> a == es[..|a|];
    var last := |a| - 1;
    if !(a <= es) {
      assert a[..k] == a[..last][..k] == es[..last][..k] == es[..k];
      assert k < last ==> a[k] == a[..last][k] == es[..last][k];
    }
  }

  lemma EarlyArrives(es: seq<Event>, k: nat, y: Event)
    requires k < |es| && Early(y, es[k]) && AllActive(es)
    ensures Arrives(es[..k] + [y], es)
  {
    hide Active, EventCut;
    var a := es[..k] + [y];
    assert a[..|a| - 1] == es[..k];
    if y == es[k] {
      assert a == es[..k + 1];
    }
  }

  lemma {:induction false} SafeRunSteps(s: State, es: seq<Event>)
    requires Inv(s) && forall k {:trigger es[k]} :: 0 <= k < |es| ==> SafeStep(Run(s, es[..k]), es[k])
    ensures SafeRun(s, es)
    decreases |es|
  {
    hide Inv, SafeStep, Run, SafeRun;
    if es == [] {
      NothingIsSafe(s);
    } else {
      var k := |es| - 1;
      var rest := es[..k];
      forall i {:trigger rest[i]} | 0 <= i < k ensures SafeStep(Run(s, rest[..i]), rest[i]) {
        assert rest[..i] == es[..i] && rest[i] == es[i];
      }
      SafeRunSteps(s, rest);
      SafeRunLast(s, es);
      assert SafeStep(Run(s, es[..k]), es[k]);
    }
  }

  lemma NothingIsSafe(s: State)
    requires Inv(s)
    ensures SafeRun(s, [])
  {
  }

  lemma FormIsSafe(s: State, e: Event, y: Event, x: Event)
    requires Inv(s) && SafeForms(s, e) && Early(y, e) && Early(x, y)
    ensures SafeStep(s, y) && x.text <= y.text && SafeCut(s, x, y)
  {
  }

  /** Safe everywhere, so safe between any two arrivals. */
  lemma SafeBetween(s: State, es: seq<Event>, a: seq<Event>, b: seq<Event>)
    requires Inv(s) && SafeEverywhere(s, es) && Arrives(b, es) && Arrives(a, b)
    ensures SafeGrowth(s, a, b)
  {
    hide Inv, SafeStep, SafeCut, SafeForms, Run, SafeRun, Active, Early, EventCut, Arrives;
    forall k {:trigger b[k]} | 0 <= k < |b| ensures SafeStep(Run(s, b[..k]), b[k]) {
      ArrivesAt(b, es, k);
      assert SafeForms(Run(s, es[..k]), es[k]);
      EarlyReflexive(b[k]);
      FormIsSafe(Run(s, es[..k]), es[k], b[k], b[k]);
    }
    SafeRunSteps(s, b);
    if !(a <= b) {
      var k := |a| - 1;
      assert a != [];
      ArrivesAt(a, b, k);
      ArrivesAt(b, es, k);
      assert SafeForms(Run(s, es[..k]), es[k]);
      FormIsSafe(Run(s, es[..k]), es[k], b[k], a[k]);
    }
  }

  lemma EarlyReflexive(x: Event)
    ensures Early(x, x)
  {
  }

  lemma ArrivesGrow(s: State, es: seq<Event>, a: seq<Event>, b: seq<Event>)
    requires Inv(s) && SafeEverywhere(s, es) && Arrives(b, es) && Arrives(a, b)
    ensures Grew(Run(s, a).msg, Run(s, b).msg)
  {
    SafeBetween(s, es, a, b);
    hide Inv, SafeEverywhere, SafeGrowth, Run, Grew, Active, EventsGrow;
    GrowthOfRuns(s, a, b);
  }

  lemma RunOneMore(s: State, es: seq<Event>, y: Event)
    requires Inv(s)
    ensures Run(s, es + [y]) == Step(Run(s, es), y)
  {
    hide Inv, Run, Step;
    RunLast(s, es + [y]);
    assert (es + [y])[..|es|] == es;
  }

  lemma ActiveForm(es: seq<Event>, k: nat, y: Event)
    requires AllActive(es) && k < |es| && Early(y, es[k])
    ensures AllActive(es[..k] + [y]) && (es[..k] + [y])[..k] == es[..k] && (es[..k] + [y])[k] == y
  {
    hide Active, EventCut;
  }

  /** Two forms of one event, the longer of which may arrive. */
  lemma FormsArrive(es: seq<Event>, k: nat, y: Event, x: Event)
    requires AllActive(es) && k < |es| && Early(y, es[k]) && Early(x, y)
    ensures Arrives(es[..k] + [y], es) && Arrives(es[..k], es[..k] + [y]) && Arrives(es[..k] + [x], es[..k] + [y])
  {
    hide Active, Early, Arrives;
    var b := es[..k] + [y];
    ActiveForm(es, k, y);
    EarlyArrives(es, k, y);
    PrefixArrives(b, k);
    EarlyArrives(b, k, x);
  }

  lemma FollowedAt(s: State, es: seq<Event>, a: seq<Event>, b: seq<Event>)
    requires Inv(s) && Followed(s, es) && Arrives(b, es) && Arrives(a, b)
    ensures Grew(Run(s, a).msg, Run(s, b).msg)
  {
    hide Inv, Run, Grew, Arrives;
  }

  lemma EarlyIs(x: Event, y: Event)
    requires Early(x, y)
    ensures x.text <= y.text && (x != y ==> EventCut(x, y) && Active(x))
  {
  }

  /** The forms of one event that may arrive must be safe. */
  lemma FollowedNeeds(s: State, es: seq<Event>, k: nat, y: Event, x: Event)
    requires Inv(s) && Followed(s, es) && k < |es| && Early(y, es[k]) && Early(x, y) && AllActive(es)
    ensures SafeStep(Run(s, es[..k]), y) && x.text <= y.text && SafeCut(Run(s, es[..k]), x, y)
  {
    hide Inv, SafeStep, SafeCut, Run, Step, Grew, Active, EventCut, Arrives, AllActive, Followed, Early;
    var r, b := Run(s, es[..k]), es[..k] + [y];
    FormsArrive(es, k, y, x);
    RunOneMore(s, es[..k], y);
    RunOneMore(s, es[..k], x);
    FollowedAt(s, es, es[..k], b);
    FollowedAt(s, es, es[..k] + [x], b);
    StepGrowsExactly(r, y);
    EarlyIs(x, y);
    if x == y {
      SameIsSafe(r, x);
    } else {
      CutStepGrowsExactly(r, x, y);
    }
  }

  lemma PrefixArrives(b: seq<Event>, k: nat)
    requires k <= |b| && AllActive(b)
    ensures Arrives(b[..k], b)
  {
    hide Active;
  }

  lemma SameIsSafe(s: State, x: Event)
    requires Inv(s)
    ensures SafeCut(s, x, x)
  {
    hide Normalize.TailOf;
    if x.kind == ArgValue {
      Normalize.StreamedPrefixExactly(x.text, x.text);
    }
  }

  /** For every state and every list of events: the client can follow every stream of early stretches
      exactly when each event is safe in each form in which it may arrive. */
  lemma FollowedExactly(s: State, es: seq<Event>)
    requires Inv(s) && AllActive(es)
    ensures Followed(s, es) <==> SafeEverywhere(s, es)
  {
    hide Inv, SafeStep, SafeCut, Run, Grew, Active, Early, Arrives;
    if SafeEverywhere(s, es) {
      forall a, b | Arrives(b, es) && Arrives(a, b) ensures Grew(Run(s, a).msg, Run(s, b).msg) {
        ArrivesGrow(s, es, a, b);
      }
    }
    if Followed(s, es) {
      forall k, y, x | 0 <= k < |es| && Early(y, es[k]) && Early(x, y)
        ensures SafeStep(Run(s, es[..k]), y) && x.text <= y.text && SafeCut(Run(s, es[..k]), x, y)
      {
        FollowedNeeds(s, es, k, y, x);
      }
      forall k {:trigger es[k]} | 0 <= k < |es| ensures SafeForms(Run(s, es[..k]), es[k]) {
        EarlyAll(Run(s, es[..k]), es[k]);
      }
    }
  }

  lemma EarlyAll(s: State, e: Event)
    requires Inv(s)
    requires forall y, x :: Early(y, e) && Early(x, y) ==> SafeStep(s, y) && x.text <= y.text && SafeCut(s, x, y)
    ensures SafeForms(s, e)
  {
    hide Inv, SafeStep, SafeCut, Early;
    forall y | Early(y, e) ensures SafeStep(s, y) {
      EarlyReflexive(y);
    }
  }

  lemma BlankPrefix(x: string, y: string)
    requires x <= y && Blank(y)
    ensures Blank(x)
  {
  }

  lemma FinishGrows(s: State, r: State)
    requires Inv(s) && Inv(r) && Grew(s.msg, r.msg)
    ensures Grew(Finish(s).msg, Finish(r).msg)
  {
    NothingToFlush(s);
    NothingToFlush(r);
    if Blank(r.msg.reasoning) {
      BlankPrefix(s.msg.reasoning, r.msg.reasoning);
    }
  }

  /** The message of a parse forest, read by a fresh mapper. */
  function Reading(m: Msg, forest: seq<Node>): Msg {
    Finish(Run(Fresh(m), Events(forest))).msg
  }

  function Fresh(m: Msg): (s: State)
    ensures Inv(s)
  {
    State(m, None, Nowhere, 0, false, "")
  }

  /** One step of a stream that the format keeps safe. */
  ghost predicate SafeArrival(m: Msg, ts: seq<Node>, ns: seq<Node>) {
    CutForest(ts, ns) && AllLeafy(ns) && SafeGrowth(Fresh(m), TreeEvents(ts), TreeEvents(ns))
  }

  lemma ReadingGrows(m: Msg, ts: seq<Node>, ns: seq<Node>)
    requires SafeArrival(m, ts, ns)
    ensures Grew(Reading(m, ts), Reading(m, ns))
  {
    hide SafeGrowth, CutForest, AllLeafy, EventsGrow, Run, Finish;
    var s := Fresh(m);
    ForestEventsGrow(ts, ns);
    GrowthOfRuns(s, TreeEvents(ts), TreeEvents(ns));
    RunEffective(s, Events(ts));
    RunEffective(s, Events(ns));
    FinishGrows(Run(s, Events(ts)), Run(s, Events(ns)));
  }

  function Readings(m: Msg, forests: seq<seq<Node>>): (ms: seq<Msg>)
    ensures |ms| == |forests| && forall i :: 0 <= i < |ms| ==> ms[i] == Reading(m, forests[i])
  {
    if forests == [] then [] else [Reading(m, forests[0])] + Readings(m, forests[1..])
  }

  /** From parse trees to the client: over every stream of growing trees that the format keeps
      safe, no delta fails and the client ends with the message of the last tree. */
  lemma Streams(m: Msg, forests: seq<seq<Node>>, cache: seq<string>, gen: nat -> string)
    requires forests != []
    requires forall i :: 0 < i < |forests| ==> SafeArrival(m, forests[i - 1], forests[i])
    ensures var ms := StampAll(Readings(m, forests), cache, gen);
            ReceiveAll(ms[0], ms) == Ok(ms[|ms| - 1])
  {
    hide Reading, Grew, SafeArrival, Extends;
    var ms := Readings(m, forests);
    forall i | 0 < i < |ms| ensures Grew(ms[i - 1], ms[i]) {
      ReadingGrows(m, forests[i - 1], forests[i]);
    }
    StampedStream(ms, cache, gen);
    StreamDelivered(StampAll(ms, cache, gen));
  }

  // ----- streams that end with one tree -----

  lemma OpensLeafy(cs: seq<Node>)
    requires TreeEvents(cs) == []
    ensures AllLeafy(cs)
    decreases cs, 0
  {
    hide TreeEvents, Opens;
    forall i | 0 <= i < |cs| ensures Leafy(cs[i]) {
      NoEventsAt(cs, i);
      NoEventsLeafy(cs[i]);
    }
  }

  lemma NoEventsLeafy(n: Node)
    requires TreeEvents(n.children) == []
    ensures Leafy(n)
    decreases n, 1
  {
    hide TreeEvents, Opens;
    OpensLeafy(n.children);
  }

  lemma {:induction false} NoEventsAt(cs: seq<Node>, i: nat)
    requires TreeEvents(cs) == [] && i < |cs|
    ensures TreeEvents(cs[i].children) == []
    decreases |cs|
  {
    hide TreeEvents;
    TreeEventsCons(cs);
    if i > 0 {
      NoEventsAt(cs[1..], i - 1);
    }
  }

  /** Whatever is cut from a forest of this kind is of this kind. */
  lemma {:induction false} LeafyCut(ts: seq<Node>, ns: seq<Node>)
    requires CutForest(ts, ns) && AllLeafy(ns)
    ensures AllLeafy(ts)
    decreases ns
  {
    hide TreeEvents, Opens;
    if ts != [] {
      var k := |ts| - 1;
      forall i | 0 <= i < k ensures Leafy(ts[i]) {
        assert ts[i] == if ts == ns[..|ts|] then ns[..|ts|][i] else ns[..k][i];
      }
      if ts == ns[..|ts|] {
        assert ts[k] == ns[k];
      } else if TextNode(ns[k].kind) || (ns[k].kind == ToolArgs && Opens(ns[k].text)) {
        CutOfNothing(ts[k].children, ns[k].children);
        NoEventsLeafy(ts[k]);
      } else {
        if ns[k].kind == ToolArgs && Opens(ts[k].text) { OpensPrefix(ts[k].text, ns[k].text); }
        LeafyCut(ts[k].children, ns[k].children);
      }
    }
  }

  lemma GrowTransitive(a: seq<Event>, b: seq<Event>, c: seq<Event>)
    requires EventsGrow(a, b) && EventsGrow(b, c)
    ensures EventsGrow(a, c)
  {
    if a != [] && !(a <= c) {
      var k := |a| - 1;
      assert |a| <= |b| <= |c|;
      assert a[..k] == b[..k];
      if b <= c {
        assert b == c[..|b|] && b[..k] == c[..k];
      } else {
        var j := |b| - 1;
        assert b[..k] == b[..j][..k] == c[..j][..k] == c[..k];
        if k < j { assert b[k] == b[..j][k] == c[..j][k]; }
      }
    }
  }

  /** A forest that is safe in whatever part of it arrives. */
  ghost predicate SafeForest(m: Msg, ns: seq<Node>) {
    AllLeafy(ns) && SafeEverywhere(Fresh(m), TreeEvents(ns))
  }

  lemma {:induction false} CutsOfLast(forests: seq<seq<Node>>, i: nat)
    requires i < |forests| && forall j :: 0 < j < |forests| ==> CutForest(forests[j - 1], forests[j])
    requires AllLeafy(forests[|forests| - 1])
    ensures AllLeafy(forests[i]) && EventsGrow(TreeEvents(forests[i]), TreeEvents(forests[|forests| - 1]))
    decreases |forests| - i
  {
    hide CutForest, AllLeafy, TreeEvents, EventCut;
    if i + 1 < |forests| {
      CutsOfLast(forests, i + 1);
      assert CutForest(forests[i + 1 - 1], forests[i + 1]);
      LeafyCut(forests[i], forests[i + 1]);
      ForestEventsGrow(forests[i], forests[i + 1]);
      GrowTransitive(TreeEvents(forests[i]), TreeEvents(forests[i + 1]), TreeEvents(forests[|forests| - 1]));
    }
  }

  /** The condition on the last tree alone: however its text arrives, no delta fails and the client ends
      with its message. */
  lemma StreamsOfForest(m: Msg, forests: seq<seq<Node>>, cache: seq<string>, gen: nat -> string)
    requires forests != [] && forall i :: 0 < i < |forests| ==> CutForest(forests[i - 1], forests[i])
    requires SafeForest(m, forests[|forests| - 1])
    ensures var ms := StampAll(Readings(m, forests), cache, gen);
            ReceiveAll(ms[0], ms) == Ok(ms[|ms| - 1])
  {
    hide CutForest, AllLeafy, SafeEverywhere, EventsGrow, TreeEvents, Reading, AllActive, SafeGrowth, Arrives;
    var last := |forests| - 1;
    forall i | 0 < i < |forests| ensures SafeArrival(m, forests[i - 1], forests[i]) {
      CutsOfLast(forests, i);
      ForestEventsGrow(forests[i - 1], forests[i]);
      TreeArrives(forests[i], forests[last]);
      TreeArrives(forests[i - 1], forests[i]);
      SafeBetween(Fresh(m), TreeEvents(forests[last]), TreeEvents(forests[i - 1]), TreeEvents(forests[i]));
    }
    Streams(m, forests, cache, gen);
  }

  lemma TreeArrives(ts: seq<Node>, ns: seq<Node>)
    requires EventsGrow(TreeEvents(ts), TreeEvents(ns))
    ensures Arrives(TreeEvents(ts), TreeEvents(ns))
  {
    hide Active, EventsGrow;
  }
}
