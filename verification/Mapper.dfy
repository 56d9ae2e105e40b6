/** The general mapper: a state machine fed with the tagged nodes of a parse tree in document
    order. It assembles tool calls, buffers arguments until the call has a name, and repairs
    what a cut-off text leaves open. The object of the source is the class `PegMapper`; its
    state as a value is `State`, and every method is proved to be a step of the functions on
    it. The pointer to the call under way is a place: nowhere, the pending call, or an index
    into the message, which is what the pointer into the vector amounts to while the vector
    grows only by appending. */
module Mapper {
  import opened Chars
  import opened JsonText
  import opened Wrappers
  import Normalize
  import opened Ast
  import opened ChatDiff

  datatype Event = Event(kind: Label, text: string)

  // ----- white space -----

  function TrimTrailing(s: string): (r: string)
    ensures r <= s
    ensures r != "" ==> !IsSpace(r[|r| - 1])
    decreases |s|
  {
    if s != "" && IsSpace(s[|s| - 1]) then TrimTrailing(s[..|s| - 1]) else s
  }

  /** `trim`: at most one leading space, all trailing ones. */
  function Trim(s: string): string {
    TrimTrailing(if s != "" && IsSpace(s[0]) then s[1..] else s)
  }

  lemma {:induction false} TrimKeeps(s: string, k: nat)
    requires 0 < k <= |s| && !IsSpace(s[k - 1])
    ensures |TrimTrailing(s)| >= k
    decreases |s|
  {
    if IsSpace(s[|s| - 1]) {
      TrimKeeps(s[..|s| - 1], k);
    }
  }

  lemma TrimPrefix(x: string, y: string)
    requires x <= y
    ensures TrimTrailing(x) <= TrimTrailing(y)
  {
    var k := |TrimTrailing(x)|;
    if k > 0 {
      assert y[k - 1] == x[k - 1] == TrimTrailing(x)[k - 1];
      TrimKeeps(y, k);
    }
  }

  // ----- the state -----

  /** Where `current_tool` points: nowhere, into the pending call, or at a call already handed
      to the message. */
  datatype Cursor = Nowhere | Pending | InResult(i: nat)

  datatype State = State(msg: Msg, pending: Option<ToolCall>, current: Cursor,
                         argCount: nat, quoteOpen: bool, buffer: string)

  /** The pointer never dangles: it is the pending call exactly when there is one, and
      otherwise the newest call of the message. A pending call has no name yet, and arguments
      are buffered only for a call without one. */
  predicate Inv(s: State) {
    && (s.pending.Some? <==> s.current == Pending)
    && (s.pending.Some? ==> s.pending.value.name == "")
    && (s.current.InResult? ==> s.current.i + 1 == |s.msg.calls|)
    && (s.current.InResult? && s.buffer != "" ==> s.msg.calls[s.current.i].name == "")
  }

  function Current(s: State): ToolCall
    requires Inv(s) && s.current != Nowhere
  {
    if s.current == Pending then s.pending.value else s.msg.calls[s.current.i]
  }

  function SetCurrent(s: State, c: ToolCall): State
    requires Inv(s) && s.current != Nowhere
  {
    if s.current == Pending then s.(pending := Some(c))
    else s.(msg := s.msg.(calls := s.msg.calls[s.current.i := c]))
  }

  /** `args_target`. */
  function Target(s: State): string
    requires Inv(s) && s.current != Nowhere
  {
    if Current(s).name != "" then Current(s).arguments else s.buffer
  }

  function SetTarget(s: State, t: string): (r: State)
    requires Inv(s) && s.current != Nowhere
    ensures r.argCount == s.argCount && r.quoteOpen == s.quoteOpen && r.current == s.current
  {
    if Current(s).name != "" then SetCurrent(s, Current(s).(arguments := t)) else s.(buffer := t)
  }

  // ----- one node -----

  function IdText(text: string): string {
    var t := TrimTrailing(text);
    if |t| >= 2 && t[0] == '"' && t[|t| - 1] == '"' then t[1..|t| - 1] else t
  }

  function OnName(s: State, text: string): State
    requires Inv(s) && s.current != Nowhere
  {
    var c := Current(s).(name := TrimTrailing(text));
    var c1 := if s.buffer != "" then c.(arguments := s.buffer)
              else if c.arguments == "" then c.(arguments := "{") else c;
    if s.pending.Some? then
      s.(msg := s.msg.(calls := s.msg.calls + [c1]), pending := None, current := InResult(|s.msg.calls|), buffer := "")
    else SetCurrent(s, c1).(buffer := "")
  }

  function OnArgName(s: State, text: string): State
    requires Inv(s) && s.current != Nowhere
  {
    var entry := (if s.argCount > 0 then "," else "") + Dump(Trim(text)) + ":";
    SetTarget(s, (if Target(s) == "" then "{" else Target(s)) + entry).(argCount := s.argCount + 1)
  }

  /** What a string value adds: its opening quote when none is open yet, and its escaped text. */
  function StringPiece(quoteOpen: bool, text: string): string {
    if text == "" then "\"" else (if quoteOpen then "" else "\"") + Escape(text)
  }

  /** What closing adds to the arguments: the quote and the braces that are still open. */
  function Repaired(arguments: string, quoteOpen: bool): string {
    var a := arguments + if quoteOpen then "\"" else "";
    a + Closers(Scan(START, a).depth)
  }

  function OnClose(s: State): State
    requires Inv(s) && s.current != Nowhere
  {
    var c := Current(s);
    var flush := c.name == "" && s.buffer != "";
    var a := Repaired(if flush then s.buffer else c.arguments, s.quoteOpen);
    var s1 := SetCurrent(s, c.(arguments := a)).(buffer := if flush then "" else s.buffer, quoteOpen := false);
    if s.pending.Some? then
      s1.(msg := if c.name != "" then s.msg.(calls := s.msg.calls + [c.(arguments := a)]) else s.msg,
          pending := None, current := Nowhere)
    else s1
  }

  /** `map`. */
  function Step(s: State, e: Event): State
    requires Inv(s)
  {
    if e.kind == Reasoning then s.(msg := s.msg.(reasoning := s.msg.reasoning + e.text))
    else if e.kind == Content then s.(msg := s.msg.(content := s.msg.content + e.text))
    else if e.kind == ToolOpen then State(s.msg, Some(NO_CALL), Pending, 0, false, "")
    else if e.kind == ArgOpen then s.(quoteOpen := false)
    else if s.current == Nowhere then s
    else if e.kind == ToolId then SetCurrent(s, Current(s).(id := IdText(e.text)))
    else if e.kind == ToolName then OnName(s, e.text)
    else if e.kind == ToolArgs then
      var t := TrimTrailing(e.text);
      if t != "" && t[0] == '{' then SetTarget(s, t) else s
    else if e.kind == ArgName then OnArgName(s, e.text)
    else if e.kind == ArgStringValue then SetTarget(s, Target(s) + StringPiece(s.quoteOpen, e.text)).(quoteOpen := true)
    else if e.kind == ArgValue then SetTarget(s, Target(s) + Normalize.Norm(e.text))
    else if e.kind == ArgClose then
      if s.quoteOpen then SetTarget(s, Target(s) + "\"").(quoteOpen := false) else s
    else if e.kind == ToolClose then OnClose(s)
    else s
  }

  /** Writing arguments changes one call of the message at most, the last one. */
  lemma SetTargetKeeps(s: State, t: string)
    requires Inv(s) && s.current != Nowhere
    ensures var r := SetTarget(s, t);
            && Inv(r) && Inv(r.(quoteOpen := false)) && Inv(r.(quoteOpen := true))
            && Inv(r.(argCount := s.argCount + 1))
            && |r.msg.calls| == |s.msg.calls|
            && forall i :: 0 <= i < |s.msg.calls| - 1 ==> r.msg.calls[i] == s.msg.calls[i]
  {
  }

  lemma CallStepKeeps(s: State, e: Event)
    requires Inv(s) && s.current != Nowhere
    requires e.kind in {ToolId, ToolName, ToolClose}
    ensures var r := Step(s, e);
            && Inv(r)
            && |s.msg.calls| <= |r.msg.calls| <= |s.msg.calls| + 1
            && (|r.msg.calls| > |s.msg.calls| ==> s.msg.calls <= r.msg.calls)
            && forall i :: 0 <= i < |s.msg.calls| - 1 ==> r.msg.calls[i] == s.msg.calls[i]
  {
    hide Normalize.Norm, Escape, Scan, Closers, TrimTrailing, Dump, IdText;
  }

  lemma ArgStepKeeps(s: State, e: Event)
    requires Inv(s) && s.current != Nowhere
    requires e.kind in {ToolArgs, ArgName, ArgStringValue, ArgValue, ArgClose}
    ensures var r := Step(s, e);
            && Inv(r)
            && |r.msg.calls| == |s.msg.calls|
            && forall i :: 0 <= i < |s.msg.calls| - 1 ==> r.msg.calls[i] == s.msg.calls[i]
  {
    hide Normalize.Norm, Dump, SetTarget, TrimTrailing, Target, StringPiece, Trim;
    if e.kind == ToolArgs {
      SetTargetKeeps(s, TrimTrailing(e.text));
    } else if e.kind == ArgName {
      SetTargetKeeps(s, (if Target(s) == "" then "{" else Target(s))
                        + ((if s.argCount > 0 then "," else "") + Dump(Trim(e.text)) + ":"));
    } else if e.kind == ArgStringValue {
      SetTargetKeeps(s, Target(s) + StringPiece(s.quoteOpen, e.text));
    } else if e.kind == ArgValue {
      SetTargetKeeps(s, Target(s) + Normalize.Norm(e.text));
    } else {
      SetTargetKeeps(s, Target(s) + "\"");
    }
  }

  /** Every step keeps the pointer sound, whatever node arrives. */
  lemma StepKeepsInv(s: State, e: Event)
    requires Inv(s)
    ensures Inv(Step(s, e))
  {
    hide Normalize.Norm, Dump, SetTarget, SetCurrent, OnName, OnClose, TrimTrailing, Target, StringPiece, Trim;
    if s.current != Nowhere {
      if e.kind in {ToolId, ToolName, ToolClose} {
        CallStepKeeps(s, e);
      } else if e.kind in {ToolArgs, ArgName, ArgStringValue, ArgValue, ArgClose} {
        ArgStepKeeps(s, e);
      }
    }
  }

  function Run(s: State, es: seq<Event>): (r: State)
    requires Inv(s)
    ensures Inv(r)
    decreases |es|
  {
    if es == [] then s else StepKeepsInv(s, es[0]); Run(Step(s, es[0]), es[1..])
  }

  lemma {:induction false} RunConcat(s: State, a: seq<Event>, b: seq<Event>)
    requires Inv(s)
    ensures Run(s, a + b) == Run(Run(s, a), b)
    decreases |a|
  {
    hide Step;
    if a == [] {
      assert a + b == b;
    } else {
      StepKeepsInv(s, a[0]);
      RunConcat(Step(s, a[0]), a[1..], b);
      assert (a + b)[1..] == a[1..] + b;
    }
  }

  predicate Blank(s: string) {
    forall k :: 0 <= k < |s| ==> s[k] in {' ', '\n', '\r', '\t'}
  }

  /** The end of `from_ast`: flush a pending call that has a name, drop blank reasoning. */
  function Finish(s: State): State {
    var s1 :=
      if s.pending.Some? && s.pending.value.name != "" then
        var c := s.pending.value;
        var c1 := if s.buffer != "" then c.(arguments := s.buffer) else c;
        var c2 := if s.quoteOpen && c1.arguments != "" then c1.(arguments := c1.arguments + "\"") else c1;
        s.(msg := s.msg.(calls := s.msg.calls + [c2]), pending := None)
      else s;
    if Blank(s1.msg.reasoning) then s1.(msg := s1.msg.(reasoning := "")) else s1
  }

  /** That flush is never needed: a call gets its name and its place in the message at once. */
  lemma NothingToFlush(s: State)
    requires Inv(s)
    ensures Finish(s).msg.calls == s.msg.calls
  {
  }

  // ----- calls that are no longer the last are frozen -----

  lemma StepFreezes(s: State, e: Event)
    requires Inv(s)
    ensures var before, after := s.msg.calls, Step(s, e).msg.calls;
            && |before| <= |after| <= |before| + 1
            && (|after| > |before| ==> before <= after)
            && forall i :: 0 <= i < |before| - 1 ==> before[i] == after[i]
  {
    hide Normalize.Norm, Dump, SetTarget, SetCurrent, OnName, OnClose, TrimTrailing, Target, StringPiece, Trim;
    if s.current != Nowhere {
      if e.kind in {ToolId, ToolName, ToolClose} {
        CallStepKeeps(s, e);
      } else if e.kind in {ToolArgs, ArgName, ArgStringValue, ArgValue, ArgClose} {
        ArgStepKeeps(s, e);
      }
    }
  }

  /** Over every run: each call that had a successor when the run began is untouched at its end. */
  lemma {:induction false} RunFreezes(s: State, es: seq<Event>)
    requires Inv(s)
    ensures var before, after := s.msg.calls, Run(s, es).msg.calls;
            && |before| <= |after|
            && forall i :: 0 <= i < |before| - 1 ==> before[i] == after[i]
    decreases |es|
  {
    hide Step;
    if es != [] {
      StepKeepsInv(s, es[0]);
      StepFreezes(s, es[0]);
      RunFreezes(Step(s, es[0]), es[1..]);
    }
  }

  // ----- the class -----

  /** Document order: a node before its children, the children from left to right. */
  function Events(cs: seq<Node>): seq<Event>
    decreases cs
  {
    if cs == [] then [] else [Event(cs[0].kind, cs[0].text)] + Events(cs[0].children) + Events(cs[1..])
  }

  lemma EventsCons(n: Node)
    ensures Events([n]) == [Event(n.kind, n.text)] + Events(n.children)
  {
    assert [n][1..] == [];
  }

  lemma {:induction false} EventsConcat(a: seq<Node>, b: seq<Node>)
    ensures Events(a + b) == Events(a) + Events(b)
    decreases |a|
  {
    if a == [] {
      assert a + b == b;
    } else {
      EventsConcat(a[1..], b);
      assert (a + b)[1..] == a[1..] + b && (a + b)[0] == a[0];
      var head := [Event(a[0].kind, a[0].text)] + Events(a[0].children);
      assert head + (Events(a[1..]) + Events(b)) == head + Events(a[1..]) + Events(b);
    }
  }

  /** Closing the arguments: a quote if one is open, then one brace at a time. */
  method Repair(arguments: string, quoteOpen: bool) returns (r: string)
    ensures r == Repaired(arguments, quoteOpen)
  {
    hide Scan;
    r := arguments;
    if quoteOpen {
      r := r + "\"";
    } else {
      assert r + "" == r;
    }
    ghost var quoted := r;
    var depth := BraceDepth(r);
    ghost var d := depth;
    assert quoted + Closers(0) == quoted;
    while depth > 0
      invariant depth <= d && (d >= 0 ==> depth >= 0) && (d < 0 ==> depth == d)
      invariant r + Closers(depth) == quoted + Closers(d)
    {
      assert r + Closers(depth) == r + "}" + Closers(depth - 1);
      r := r + "}";
      depth := depth - 1;
    }
    assert r + "" == r;
  }

  class PegMapper {
    var reasoning: string
    var content: string
    var calls: seq<ToolCall>
    var pending: Option<ToolCall>
    var current: Cursor
    var argCount: nat
    var quoteOpen: bool
    var buffer: string

    ghost function View(): State
      reads this
    {
      State(Msg(reasoning, content, calls), pending, current, argCount, quoteOpen, buffer)
    }

    ghost predicate Valid()
      reads this
    {
      Inv(View())
    }

    constructor (msg: Msg)
      ensures Valid() && View() == State(msg, None, Nowhere, 0, false, "")
    {
      reasoning, content, calls := msg.reasoning, msg.content, msg.calls;
      pending, current, argCount, quoteOpen, buffer := None, Nowhere, 0, false, "";
    }

    function Tool(): ToolCall
      requires Valid() && current != Nowhere
      reads this
    {
      if current == Pending then pending.value else calls[current.i]
    }

    method PutTool(c: ToolCall)
      requires Valid() && current != Nowhere
      modifies this`pending, this`calls
      ensures View() == SetCurrent(old(View()), c)
    {
      if current == Pending {
        pending := Some(c);
      } else {
        calls := calls[current.i := c];
      }
    }

    /** Appends to whichever string collects the arguments at the moment. */
    method Append(text: string)
      requires Valid() && current != Nowhere
      modifies this`pending, this`calls, this`buffer
      ensures View() == SetTarget(old(View()), Target(old(View())) + text)
    {
      if Tool().name != "" {
        PutTool(Tool().(arguments := Tool().arguments + text));
      } else {
        buffer := buffer + text;
      }
    }

    method Replace(text: string)
      requires Valid() && current != Nowhere
      modifies this`pending, this`calls, this`buffer
      ensures View() == SetTarget(old(View()), text)
    {
      if Tool().name != "" {
        PutTool(Tool().(arguments := text));
      } else {
        buffer := text;
      }
    }

    method MapName(text: string)
      requires Valid() && current != Nowhere
      modifies this
      ensures View() == OnName(old(View()), text)
    {
      var c := Tool().(name := TrimTrailing(text));
      if buffer != "" {
        c := c.(arguments := buffer);
        buffer := "";
      } else if c.arguments == "" {
        c := c.(arguments := "{");
      }
      if pending.Some? {
        calls := calls + [c];
        pending := None;
        current := InResult(|calls| - 1);
      } else {
        calls := calls[current.i := c];
      }
    }

    method MapId(text: string)
      requires Valid() && current != Nowhere
      modifies this`pending, this`calls
      ensures View() == SetCurrent(old(View()), Current(old(View())).(id := IdText(text)))
    {
      var t := TrimTrailing(text);
      if |t| >= 2 && t[0] == '"' && t[|t| - 1] == '"' {
        t := t[1..|t| - 1];
      }
      PutTool(Tool().(id := t));
    }

    method MapArgName(text: string)
      requires Valid() && current != Nowhere
      modifies this
      ensures View() == OnArgName(old(View()), text)
    {
      var entry := "";
      if argCount > 0 {
        entry := ",";
      }
      entry := entry + Dump(Trim(text)) + ":";
      argCount := argCount + 1;
      var target := if Tool().name != "" then Tool().arguments else buffer;
      if target == "" {
        target := "{";
      }
      Replace(target + entry);
    }

    method MapClose()
      requires Valid() && current != Nowhere
      modifies this
      ensures View() == OnClose(old(View()))
    {
      hide Repaired;
      var c := Tool();
      if c.name == "" && buffer != "" {
        c := c.(arguments := buffer);
        buffer := "";
      }
      var repaired := Repair(c.arguments, quoteOpen);
      quoteOpen := false;
      c := c.(arguments := repaired);
      if pending.Some? {
        // The source hands over a pending call that has a name; by Inv there is none.
        if c.name != "" {
          assert false;
        }
        pending := None;
        current := Nowhere;
      } else {
        PutTool(c);
      }
    }

    /** The branches that need a call under the pointer. */
    method MapInTool(kind: Label, text: string)
      requires Valid() && current != Nowhere
      requires kind !in {Reasoning, Content, ToolOpen, ArgOpen}
      modifies this
      ensures View() == Step(old(View()), Event(kind, text))
    {
      hide Normalize.Norm, IdText, SetTarget, SetCurrent, OnName, OnClose, OnArgName, StringPiece;
      if kind == ToolId {
        MapId(text);
      } else if kind == ToolName {
        MapName(text);
      } else if kind == ToolArgs {
        var t := TrimTrailing(text);
        if t != "" && t[0] == '{' {
          Replace(t);
        }
      } else if kind == ArgName {
        MapArgName(text);
      } else if kind == ArgStringValue {
        var piece := StringPiece(quoteOpen, text);
        Append(piece);
        quoteOpen := true;
      } else if kind == ArgValue {
        var json := Normalize.NormalizeQuotes(text);
        Append(json);
      } else if kind == ArgClose {
        if quoteOpen {
          Append("\"");
          quoteOpen := false;
        }
      } else if kind == ToolClose {
        MapClose();
      }
    }

    /** One node; a node carries one tag, so at most one of the branches applies. */
    method Map(kind: Label, text: string)
      requires Valid()
      modifies this
      ensures Valid() && View() == Step(old(View()), Event(kind, text))
    {
      hide Normalize.Norm, SetTarget, SetCurrent, OnName, OnClose, OnArgName, StringPiece;
      StepKeepsInv(View(), Event(kind, text));
      if kind == Reasoning {
        reasoning := reasoning + text;
      } else if kind == Content {
        content := content + text;
      } else if kind == ToolOpen {
        pending, current := Some(NO_CALL), Pending;
        argCount, buffer, quoteOpen := 0, "", false;
      } else if kind == ArgOpen {
        quoteOpen := false;
      } else if current != Nowhere {
        MapInTool(kind, text);
      }
    }

    method VisitNode(n: Node)
      requires Valid()
      modifies this
      ensures Valid() && View() == Run(old(View()), Events([n]))
      decreases n, 1
    {
      hide Step;
      ghost var s := View();
      EventsCons(n);
      var e := Event(n.kind, n.text);
      RunConcat(s, [e], Events(n.children));
      assert [e][1..] == [];
      Map(n.kind, n.text);
      assert View() == Run(s, [e]);
      VisitForest(n.children);
    }

    method VisitForest(cs: seq<Node>)
      requires Valid()
      modifies this
      ensures Valid() && View() == Run(old(View()), Events(cs))
      decreases cs, 0
    {
      hide Step;
      ghost var s := View();
      var k := 0;
      while k < |cs|
        invariant 0 <= k <= |cs|
        invariant Valid() && View() == Run(s, Events(cs[..k]))
      {
        EventsConcat(cs[..k], [cs[k]]);
        assert cs[..k + 1] == cs[..k] + [cs[k]];
        RunConcat(s, Events(cs[..k]), Events([cs[k]]));
        VisitNode(cs[k]);
        k := k + 1;
      }
      assert cs[..|cs|] == cs;
    }

    method FromAst(forest: seq<Node>)
      requires Valid()
      modifies this
      ensures View() == Finish(Run(old(View()), Events(forest)))
    {
      VisitForest(forest);
      // The source flushes a pending call that has a name; by Inv there is none.
      if pending.Some? && pending.value.name != "" {
        assert false;
      }
      if reasoning != "" {
        var allBlank := true;
        for k := 0 to |reasoning|
          invariant allBlank ==> Blank(reasoning[..k])
          invariant !allBlank ==> !Blank(reasoning)
        {
          if reasoning[k] !in {' ', '\n', '\r', '\t'} {
            allBlank := false;
            break;
          }
        }
        if allBlank {
          assert reasoning[..|reasoning|] == reasoning;
          reasoning := "";
        }
      }
    }
  }
}
