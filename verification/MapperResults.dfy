/** What a run of the general mapper reports: texts and calls. */
module MapperResults {
  import opened Chars
  import opened JsonText
  import opened JsonValue
  import opened Wrappers
  import opened Ast
  import opened AstWalk
  import opened ChatDiff
  import opened Mapper
  import Normalize

  // ----- trimming -----

  /** Only white space is cut off, and all of it. */
  lemma {:induction false} TrimExactly(s: string, blanks: string)
    requires forall k :: 0 <= k < |blanks| ==> IsSpace(blanks[k])
    requires s != "" ==> !IsSpace(s[|s| - 1])
    ensures TrimTrailing(s + blanks) == s
    decreases |blanks|
  {
    if blanks == "" {
      assert s + blanks == s;
    } else {
      var k := |blanks| - 1;
      TrimExactly(s, blanks[..k]);
      assert (s + blanks)[..|s| + k] == s + blanks[..k];
    }
  }

  /** An id loses the white space behind it and one pair of quotes around it. */
  lemma IdExactly(id: string, blanks: string)
    requires forall k :: 0 <= k < |blanks| ==> IsSpace(blanks[k])
    ensures IdText("\"" + id + "\"" + blanks) == id
    ensures (id == "" || (!IsSpace(id[|id| - 1]) && (id[0] != '"' || id[|id| - 1] != '"'))) ==>
              IdText(id + blanks) == id
  {
    hide TrimTrailing;
    var quoted := "\"" + id + "\"";
    assert !IsSpace(quoted[|quoted| - 1]);
    TrimExactly(quoted, blanks);
    assert quoted[1..|quoted| - 1] == id;
    if id == "" || !IsSpace(id[|id| - 1]) {
      TrimExactly(id, blanks);
    }
  }

  /** A name loses one white space character before it, if there is one, and all behind it. */
  lemma NameTrimmed(lead: string, name: string, blanks: string)
    requires |lead| <= 1 && forall k :: 0 <= k < |lead| ==> IsSpace(lead[k])
    requires forall k :: 0 <= k < |blanks| ==> IsSpace(blanks[k])
    requires name != "" && !IsSpace(name[|name| - 1]) && (lead == "" ==> !IsSpace(name[0]))
    ensures Trim(lead + name + blanks) == name
  {
    hide TrimTrailing;
    TrimExactly(name, blanks);
    var s := lead + name + blanks;
    if lead == "" {
      assert s == name + blanks && s[0] == name[0];
    } else {
      assert s[0] == lead[0] && s[1..] == name + blanks;
    }
  }

  /** White space is a blank, a tab, a line feed, a vertical tab, a form feed or a carriage return. */
  lemma SpacesSpelled(c: char)
    ensures IsSpace(c) <==> c == ' ' || 9 <= c as int <= 13
  {
  }

  // ----- content and reasoning -----

  /** The texts of the events of one kind, in order. */
  function Texts(es: seq<Event>, kind: Label): string {
    if es == [] then "" else (if es[0].kind == kind then es[0].text else "") + Texts(es[1..], kind)
  }

  lemma TextsStep(e: Event, rest: seq<Event>, kind: Label)
    ensures Texts([e] + rest, kind) == (if e.kind == kind then e.text else "") + Texts(rest, kind)
  {
    assert ([e] + rest)[1..] == rest;
  }

  lemma {:induction false} TextsConcat(a: seq<Event>, b: seq<Event>, kind: Label)
    ensures Texts(a + b, kind) == Texts(a, kind) + Texts(b, kind)
    decreases |a|
  {
    if a == [] {
      assert a + b == b;
    } else {
      var e, rest := a[0], a[1..];
      assert a == [e] + rest && a + b == [e] + (rest + b);
      hide *;
      TextsConcat(rest, b, kind);
      TextsStep(e, rest, kind);
      TextsStep(e, rest + b, kind);
      Assoc(if e.kind == kind then e.text else "", Texts(rest, kind), Texts(b, kind));
    }
  }

  /** The events of a forest are its nodes in document order. */
  lemma {:induction false} EventsTexts(cs: seq<Node>, kind: Label)
    ensures Texts(Events(cs), kind) == TextOf(Nodes(cs), kind)
    decreases cs
  {
    if cs != [] {
      var n, rest := cs[0], cs[1..];
      EventsTexts(n.children, kind);
      EventsTexts(rest, kind);
      var e, ns := [Event(n.kind, n.text)], [n];
      assert Texts(e, kind) == TextOf(ns, kind) by {
        assert e[1..] == [] && ns[1..] == [];
      }
      hide Texts, TextOf;
      TextsConcat(e + Events(n.children), Events(rest), kind);
      TextsConcat(e, Events(n.children), kind);
      TextOfConcat(ns + Nodes(n.children), Nodes(rest), kind);
      TextOfConcat(ns, Nodes(n.children), kind);
    }
  }

  ghost predicate SameText(s: State, r: State) {
    r.msg.content == s.msg.content && r.msg.reasoning == s.msg.reasoning
  }

  lemma TargetText(s: State, t: string)
    requires Inv(s) && s.current != Nowhere
    ensures SameText(s, SetTarget(s, t))
  {
  }

  lemma CallText(s: State, e: Event)
    requires Inv(s) && s.current != Nowhere && e.kind in {ToolId, ToolName, ToolClose}
    ensures SameText(s, Step(s, e))
  {
    hide Repaired, IdText, TrimTrailing;
  }

  /** What argument events write, if they write anything. */
  lemma ArgWrites(s: State, e: Event) returns (writes: bool, t: string, open: bool, count: nat)
    requires Inv(s) && s.current != Nowhere && e.kind in {ToolArgs, ArgName, ArgStringValue, ArgValue, ArgClose}
    ensures Step(s, e) == if writes then SetTarget(s, t).(quoteOpen := open, argCount := count) else s
  {
    hide Normalize.Norm, Dump, SetTarget, TrimTrailing, Target, StringPiece, Trim, Inv;
    writes, t, open, count := true, Target(s), s.quoteOpen, s.argCount;
    if e.kind == ToolArgs {
      t := TrimTrailing(e.text);
      writes := t != "" && t[0] == '{';
    } else if e.kind == ArgName {
      t := (if t == "" then "{" else t) + ((if count > 0 then "," else "") + Dump(Trim(e.text)) + ":");
      count := count + 1;
    } else if e.kind == ArgStringValue {
      t, open := t + StringPiece(open, e.text), true;
    } else if e.kind == ArgValue {
      t := t + Normalize.Norm(e.text);
    } else {
      writes, t, open := open, t + "\"", false;
    }
  }

  lemma ArgText(s: State, e: Event)
    requires Inv(s) && s.current != Nowhere && e.kind in {ToolArgs, ArgName, ArgStringValue, ArgValue, ArgClose}
    ensures SameText(s, Step(s, e))
  {
    hide SetTarget, Step, Inv;
    var writes, t, open, count := ArgWrites(s, e);
    TargetText(s, t);
  }

  /** Only content events touch the content, and only reasoning events the reasoning. */
  lemma StepText(s: State, e: Event)
    requires Inv(s)
    ensures Step(s, e).msg.content == s.msg.content + if e.kind == Content then e.text else ""
    ensures Step(s, e).msg.reasoning == s.msg.reasoning + if e.kind == Reasoning then e.text else ""
  {
    hide Normalize.Norm, Dump, SetTarget, SetCurrent, OnName, OnClose, OnArgName, TrimTrailing, Target, StringPiece;
    assert s.msg.content + "" == s.msg.content && s.msg.reasoning + "" == s.msg.reasoning;
    if s.current != Nowhere {
      if e.kind in {ToolId, ToolName, ToolClose} {
        CallText(s, e);
      } else if e.kind in {ToolArgs, ArgName, ArgStringValue, ArgValue, ArgClose} {
        ArgText(s, e);
      }
    }
  }

  /** Over every run: what was there before, and the texts of the events of the kind, in order. */
  lemma {:induction false} RunText(s: State, es: seq<Event>)
    requires Inv(s)
    ensures Run(s, es).msg.content == s.msg.content + Texts(es, Content)
    ensures Run(s, es).msg.reasoning == s.msg.reasoning + Texts(es, Reasoning)
    decreases |es|
  {
    hide Step;
    if es == [] {
      assert s.msg.content + "" == s.msg.content && s.msg.reasoning + "" == s.msg.reasoning;
    } else {
      StepKeepsInv(s, es[0]);
      StepText(s, es[0]);
      RunText(Step(s, es[0]), es[1..]);
      var c, r := if es[0].kind == Content then es[0].text else "", if es[0].kind == Reasoning then es[0].text else "";
      Assoc(s.msg.content, c, Texts(es[1..], Content));
      Assoc(s.msg.reasoning, r, Texts(es[1..], Reasoning));
    }
  }

  /** The message of a forest: the content nodes in document order, and the reasoning nodes, unless all of
      the reasoning is blanks and line breaks. */
  lemma ForestText(s: State, forest: seq<Node>)
    requires Inv(s)
    ensures var r := Finish(Run(s, Events(forest))).msg;
            var reasoning := s.msg.reasoning + TextOf(Nodes(forest), Reasoning);
            && r.content == s.msg.content + TextOf(Nodes(forest), Content)
            && r.reasoning == if forall k :: 0 <= k < |reasoning| ==> reasoning[k] in " \n\r\t" then "" else reasoning
  {
    hide Run;
    RunText(s, Events(forest));
    EventsTexts(forest, Content);
    EventsTexts(forest, Reasoning);
  }

  // ----- name and id of a call -----

  /** The text of the last event of a kind. */
  function LastText(es: seq<Event>, kind: Label): Option<string> {
    if es == [] then None
    else if LastText(es[1..], kind).Some? then LastText(es[1..], kind)
    else if es[0].kind == kind then Some(es[0].text)
    else None
  }

  predicate WithinCall(es: seq<Event>) {
    forall i :: 0 <= i < |es| ==> es[i].kind != ToolOpen && es[i].kind != ToolClose
  }

  /** The call under the pointer, and where it is. */
  ghost predicate Progress(s: State, r: State, id: Option<string>, name: Option<string>)
    requires Inv(s) && Inv(r) && s.current != Nowhere && r.current != Nowhere
  {
    && Current(r).id == (match id case Some(t) => IdText(t) case None => Current(s).id)
    && Current(r).name == (match name case Some(t) => TrimTrailing(t) case None => Current(s).name)
    && (s.current == Pending && name.None? ==> r.current == Pending && r.msg.calls == s.msg.calls)
    && (s.current == Pending && name.Some? ==>
          r.current == InResult(|s.msg.calls|) && r.msg.calls == s.msg.calls + [Current(r)])
    && (s.current.InResult? ==> r.current == s.current && r.msg.calls == s.msg.calls[s.current.i := Current(r)])
  }

  lemma TargetProgress(s: State, t: string, open: bool, count: nat)
    requires Inv(s) && s.current != Nowhere
    ensures var r := SetTarget(s, t).(quoteOpen := open, argCount := count);
            Inv(r) && r.current != Nowhere && Progress(s, r, None, None)
  {
  }

  lemma SameProgress(s: State, r: State)
    requires Inv(s) && s.current != Nowhere
    requires r == s.(msg := r.msg, quoteOpen := r.quoteOpen) && r.msg.calls == s.msg.calls
    ensures Inv(r) && r.current != Nowhere && Progress(s, r, None, None)
  {
  }

  lemma ArgProgress(s: State, e: Event)
    requires Inv(s) && s.current != Nowhere && e.kind in {ToolArgs, ArgName, ArgStringValue, ArgValue, ArgClose}
    ensures var r := Step(s, e); Inv(r) && r.current != Nowhere && Progress(s, r, None, None)
  {
    hide SetTarget, Step, Inv, Progress;
    var writes, t, open, count := ArgWrites(s, e);
    TargetProgress(s, t, open, count);
    SameProgress(s, s);
  }

  lemma IdProgress(s: State, text: string)
    requires Inv(s) && s.current != Nowhere
    ensures var r := Step(s, Event(ToolId, text)); Inv(r) && r.current != Nowhere && Progress(s, r, Some(text), None)
  {
    hide IdText;
  }

  lemma NameProgress(s: State, text: string)
    requires Inv(s) && s.current != Nowhere
    ensures var r := Step(s, Event(ToolName, text)); Inv(r) && r.current != Nowhere && Progress(s, r, None, Some(text))
  {
    hide TrimTrailing;
  }

  lemma StepProgress(s: State, e: Event)
    requires Inv(s) && s.current != Nowhere && e.kind != ToolOpen && e.kind != ToolClose
    ensures var r := Step(s, e);
            && Inv(r) && r.current != Nowhere
            && Progress(s, r, LastText([e], ToolId), LastText([e], ToolName))
  {
    assert [e][1..] == [];
    hide Inv, Progress, Current, OnName, SetCurrent, IdText, OnArgName, SetTarget, StringPiece, Normalize.Norm;
    if e.kind == ToolId {
      IdProgress(s, e.text);
    } else if e.kind == ToolName {
      NameProgress(s, e.text);
    } else if e.kind in {ToolArgs, ArgName, ArgStringValue, ArgValue, ArgClose} {
      ArgProgress(s, e);
    } else {
      SameProgress(s, Step(s, e));
    }
  }

  lemma ProgressChain(s: State, m: State, r: State,
                      id: Option<string>, name: Option<string>, id': Option<string>, name': Option<string>)
    requires Inv(s) && Inv(m) && Inv(r) && s.current != Nowhere && m.current != Nowhere && r.current != Nowhere
    requires Progress(s, m, id, name) && Progress(m, r, id', name')
    ensures Progress(s, r, if id'.Some? then id' else id, if name'.Some? then name' else name)
  {
    hide IdText, TrimTrailing;
  }

  /** While a call is under way: its id and its name are those that arrived last, and it is in the message
      from its first name on, behind the calls before it. */
  lemma {:induction false} RunProgress(s: State, es: seq<Event>)
    requires Inv(s) && s.current != Nowhere && WithinCall(es)
    ensures Run(s, es).current != Nowhere
    ensures Progress(s, Run(s, es), LastText(es, ToolId), LastText(es, ToolName))
    decreases |es|
  {
    if es == [] {
      SameProgress(s, s);
    } else {
      StepProgress(s, es[0]);
      var m := Step(s, es[0]);
      RunProgress(m, es[1..]);
      assert [es[0]][1..] == [];
      hide Inv, Progress, Step;
      ProgressChain(s, m, Run(m, es[1..]), LastText([es[0]], ToolId), LastText([es[0]], ToolName),
                    LastText(es[1..], ToolId), LastText(es[1..], ToolName));
    }
  }

  // ----- whole calls -----

  const OPEN := Event(ToolOpen, "")
  const CLOSE := Event(ToolClose, "")

  lemma RunOne(s: State, e: Event)
    requires Inv(s)
    ensures Inv(Step(s, e)) && Run(s, [e]) == Step(s, e)
  {
    hide Step;
    StepKeepsInv(s, e);
    assert [e][1..] == [];
  }

  lemma Opened(s: State)
    requires Inv(s)
    ensures var o := Step(s, OPEN);
            && Inv(o) && o.current == Pending && o.msg == s.msg && !o.quoteOpen
            && Current(o) == NO_CALL && o.buffer == ""
  {
  }

  /** The arguments as they would be reported now. */
  function Collected(s: State): string
    requires Inv(s) && s.current != Nowhere
  {
    if Current(s).name == "" && s.buffer != "" then s.buffer else Current(s).arguments
  }

  lemma Closed(s: State)
    requires Inv(s) && s.current != Nowhere
    ensures var r := Step(s, CLOSE);
            r.msg.calls == if s.current == Pending then s.msg.calls
                           else s.msg.calls[s.current.i :=
                                  Current(s).(arguments := Repaired(Collected(s), s.quoteOpen))]
  {
    hide Repaired;
  }

  lemma RunCall(s: State, es: seq<Event>)
    requires Inv(s)
    ensures Inv(Step(s, OPEN))
    ensures Run(s, [OPEN] + es) == Run(Step(s, OPEN), es)
    ensures Run(s, [OPEN] + es + [CLOSE]) == Step(Run(Step(s, OPEN), es), CLOSE)
  {
    hide Step, Run;
    RunConcat(s, [OPEN] + es, [CLOSE]);
    RunConcat(s, [OPEN], es);
    RunOne(s, OPEN);
    RunOne(Run(s, [OPEN] + es), CLOSE);
  }

  /** The id that a call is reported with. */
  function ReportedId(es: seq<Event>): string {
    match LastText(es, ToolId)
    case Some(t) => IdText(t)
    case None => ""
  }

  /** A call from its opening to its end, or still open: it is reported once it has a name, behind the
      calls before it, with the name and the id that arrived last. */
  lemma CallFields(s: State, es: seq<Event>, closed: bool)
    requires Inv(s) && WithinCall(es)
    ensures var calls := Run(s, [OPEN] + es + if closed then [CLOSE] else []).msg.calls;
            match LastText(es, ToolName)
            case None => calls == s.msg.calls
            case Some(name) =>
              && |calls| == |s.msg.calls| + 1 && calls[..|s.msg.calls|] == s.msg.calls
              && calls[|s.msg.calls|].name == TrimTrailing(name)
              && calls[|s.msg.calls|].id == ReportedId(es)
  {
    RunCall(s, es);
    Opened(s);
    var o := Step(s, OPEN);
    hide Step, Run, Repaired, LastText;
    RunProgress(o, es);
    var m := Run(o, es);
    if closed {
      Closed(m);
    } else {
      assert [OPEN] + es + [] == [OPEN] + es;
    }
  }

  /** Nothing in these events touches the arguments. */
  predicate Quiet(es: seq<Event>) {
    forall i :: 0 <= i < |es| ==>
      es[i].kind !in {ToolOpen, ToolClose, ToolArgs, ArgName, ArgStringValue, ArgValue, ArgClose}
  }

  ghost predicate KeepsArguments(s: State, r: State)
    requires Inv(s) && s.current != Nowhere
  {
    && Inv(r) && r.current != Nowhere && (!s.quoteOpen ==> !r.quoteOpen)
    && (Collected(s) != "" ==> Collected(r) == Collected(s))
  }

  lemma NameKeepsArguments(s: State, text: string)
    requires Inv(s) && s.current != Nowhere
    ensures KeepsArguments(s, OnName(s, text))
  {
    hide TrimTrailing;
  }

  lemma IdKeepsArguments(s: State, id: string)
    requires Inv(s) && s.current != Nowhere
    ensures KeepsArguments(s, SetCurrent(s, Current(s).(id := id)))
  {
  }

  lemma TextKeepsArguments(s: State, r: State)
    requires Inv(s) && s.current != Nowhere
    requires r == s.(msg := r.msg, quoteOpen := r.quoteOpen) && r.msg.calls == s.msg.calls
    requires !s.quoteOpen ==> !r.quoteOpen
    ensures KeepsArguments(s, r)
  {
  }

  lemma QuietStep(s: State, e: Event)
    requires Inv(s) && s.current != Nowhere && Quiet([e])
    ensures KeepsArguments(s, Step(s, e))
  {
    assert [e][0].kind !in {ToolOpen, ToolClose, ToolArgs, ArgName, ArgStringValue, ArgValue, ArgClose};
    hide OnName, SetCurrent, IdText, OnArgName, SetTarget, StringPiece, Normalize.Norm, Inv, Current, KeepsArguments;
    if e.kind == ToolName {
      NameKeepsArguments(s, e.text);
    } else if e.kind == ToolId {
      IdKeepsArguments(s, IdText(e.text));
    } else {
      TextKeepsArguments(s, Step(s, e));
    }
  }

  lemma {:induction false} QuietRun(s: State, es: seq<Event>)
    requires Inv(s) && s.current != Nowhere && Quiet(es)
    ensures var r := Run(s, es);
            && r.current != Nowhere && (!s.quoteOpen ==> !r.quoteOpen)
            && (Collected(s) != "" ==> Collected(r) == Collected(s))
    decreases |es|
  {
    hide Step, Collected;
    if es != [] {
      QuietStep(s, es[0]);
      QuietRun(Step(s, es[0]), es[1..]);
    }
  }

  lemma ArgsTaken(s: State, text: string)
    requires Inv(s) && s.current != Nowhere && TrimTrailing(text) != "" && TrimTrailing(text)[0] == '{'
    ensures var r := Step(s, Event(ToolArgs, text));
            Inv(r) && r.current != Nowhere && r.quoteOpen == s.quoteOpen && Collected(r) == TrimTrailing(text)
  {
    hide TrimTrailing;
    var t := TrimTrailing(text);
    assert SetTarget(s, t) == Step(s, Event(ToolArgs, text));
  }

  lemma {:induction false} LastTextConcat(a: seq<Event>, b: seq<Event>, kind: Label)
    ensures LastText(a + b, kind) == if LastText(b, kind).Some? then LastText(b, kind) else LastText(a, kind)
    decreases |a|
  {
    if a == [] {
      assert a + b == b;
    } else {
      LastTextConcat(a[1..], b, kind);
      assert (a + b)[1..] == a[1..] + b && (a + b)[0] == a[0];
    }
  }

  /** The fields of a call do not depend on where its arguments arrive. */
  lemma LastAround(a: seq<Event>, text: string, b: seq<Event>, kind: Label)
    requires kind != ToolArgs
    ensures LastText(a + [Event(ToolArgs, text)] + b, kind) == LastText(a + b, kind)
  {
    var e := [Event(ToolArgs, text)];
    assert e[1..] == [] && LastText(e, kind) == None;
    hide LastText;
    LastTextConcat(a + e, b, kind);
    LastTextConcat(a, e, kind);
    LastTextConcat(a, b, kind);
  }

  lemma JsonCollected(s: State, before: seq<Event>, text: string, after: seq<Event>)
    requires Inv(s) && s.current != Nowhere && !s.quoteOpen && Quiet(before) && Quiet(after)
    requires TrimTrailing(text) != "" && TrimTrailing(text)[0] == '{'
    ensures var r := Run(s, before + [Event(ToolArgs, text)] + after);
            r.current != Nowhere && !r.quoteOpen && Collected(r) == TrimTrailing(text)
  {
    hide Step, Run, Collected, TrimTrailing, Current, Inv;
    var e := Event(ToolArgs, text);
    RunConcat(s, before + [e], after);
    RunConcat(s, before, [e]);
    QuietRun(s, before);
    RunOne(Run(s, before), e);
    ArgsTaken(Run(s, before), text);
    QuietRun(Run(s, before + [e]), after);
  }

  lemma QuietIsWithin(before: seq<Event>, e: Event, after: seq<Event>)
    requires Quiet(before) && Quiet(after) && e.kind == ToolArgs
    ensures WithinCall(before + [e] + after)
  {
  }

  lemma CallClosed(calls: seq<ToolCall>, o: State, es: seq<Event>, name: string)
    requires Inv(o) && o.current == Pending && Current(o) == NO_CALL && o.msg.calls == calls
    requires WithinCall(es) && LastText(es, ToolName) == Some(name)
    requires var m := Run(o, es); m.current != Nowhere && !m.quoteOpen
    ensures var m := Run(o, es);
            Step(m, CLOSE).msg.calls
            == calls + [ToolCall(TrimTrailing(name), Repaired(Collected(m), false), ReportedId(es))]
  {
    hide Step, Run, Repaired, LastText, IdText, TrimTrailing, Collected, WithinCall, Inv, Current;
    RunProgress(o, es);
    var m := Run(o, es);
    Closed(m);
    var c := Current(m).(arguments := Repaired(Collected(m), false));
    assert (calls + [Current(m)])[|calls| := c] == calls + [c];
  }

  lemma WholeCall(s: State, es: seq<Event>, arguments: string, name: string)
    requires Inv(s) && WithinCall(es) && LastText(es, ToolName) == Some(name)
    requires var o := Step(s, OPEN); Inv(o) && var m := Run(o, es);
             m.current != Nowhere && !m.quoteOpen && Collected(m) == arguments
    ensures Run(s, [OPEN] + es + [CLOSE]).msg.calls
         == s.msg.calls + [ToolCall(TrimTrailing(name), Repaired(arguments, false), ReportedId(es))]
  {
    hide *;
    RunCall(s, es);
    Opened(s);
    CallClosed(s.msg.calls, Step(s, OPEN), es, name);
  }

  lemma AroundFields(before: seq<Event>, text: string, after: seq<Event>)
    requires Quiet(before) && Quiet(after)
    ensures var es := before + [Event(ToolArgs, text)] + after;
            && WithinCall(es) && LastText(es, ToolName) == LastText(before + after, ToolName)
            && ReportedId(es) == ReportedId(before + after)
  {
    QuietIsWithin(before, Event(ToolArgs, text), after);
    hide LastText, IdText, WithinCall, Quiet;
    LastAround(before, text, after, ToolName);
    LastAround(before, text, after, ToolId);
  }

  /** A call whose arguments arrive as one JSON text: exactly that text, trimmed and closed, under the name
      and the id, wherever these stand. */
  lemma JsonCall(s: State, before: seq<Event>, text: string, after: seq<Event>, name: string)
    requires Inv(s) && Quiet(before) && Quiet(after)
    requires TrimTrailing(text) != "" && TrimTrailing(text)[0] == '{'
    requires LastText(before + after, ToolName) == Some(name)
    ensures var call := ToolCall(TrimTrailing(name), Repaired(TrimTrailing(text), false), ReportedId(before + after));
            Run(s, [OPEN] + (before + [Event(ToolArgs, text)] + after) + [CLOSE]).msg.calls == s.msg.calls + [call]
  {
    Opened(s);
    hide *;
    AroundFields(before, text, after);
    JsonCollected(Step(s, OPEN), before, text, after);
    WholeCall(s, before + [Event(ToolArgs, text)] + after, TrimTrailing(text), name);
  }

  // ----- a complete JSON text needs no repair -----

  lemma {:induction false} ScanPlain(d: int, t: string)
    requires JsonValue.Plain(t)
    ensures Scan(Lex(d, false, false), t) == Lex(d, false, false)
    decreases |t|
  {
    if t != "" {
      assert !Structural(t[0]);
      ScanPlain(d, t[1..]);
    }
  }

  lemma ScanQuoted(d: int, s: string)
    ensures Scan(Lex(d, false, false), Dump(s)) == Lex(d, false, false)
  {
    var st := Lex(d, false, false);
    ScanConcat(st, "\"" + Escape(s), "\"");
    ScanConcat(st, "\"", Escape(s));
    ScanEscape(d, s);
    assert "\""[1..] == "";
  }

  lemma ScanOne(st: Lex, c: char)
    ensures Scan(st, [c]) == LexStep(st, c)
  {
    assert [c][1..] == "";
  }

  lemma ScanThree(d: int, a: char, mid: string, b: char, e: int)
    requires LexStep(Lex(d, false, false), a) == Lex(e, false, false)
    requires Scan(Lex(e, false, false), mid) == Lex(e, false, false)
    requires LexStep(Lex(e, false, false), b) == Lex(d, false, false)
    ensures Scan(Lex(d, false, false), [a] + mid + [b]) == Lex(d, false, false)
  {
    hide Scan, LexStep;
    var st := Lex(d, false, false);
    ScanConcat(st, [a] + mid, [b]);
    ScanConcat(st, [a], mid);
    ScanOne(st, a);
    ScanOne(Lex(e, false, false), b);
  }

  lemma ScanJoined(d: int, a: string, c: char, b: string)
    requires c == ',' || c == ':'
    requires Scan(Lex(d, false, false), a) == Lex(d, false, false)
    requires Scan(Lex(d, false, false), b) == Lex(d, false, false)
    ensures Scan(Lex(d, false, false), a + [c] + b) == Lex(d, false, false)
  {
    hide Scan;
    var st := Lex(d, false, false);
    ScanConcat(st, a + [c], b);
    ScanConcat(st, a, [c]);
    ScanOne(st, c);
  }

  /** Printed values leave the lexer where it was. */
  lemma {:induction false} ScanPrint(d: int, v: Value)
    requires WellFormed(v)
    ensures Scan(Lex(d, false, false), Print(v)) == Lex(d, false, false)
    decreases v, 1
  {
    hide Scan, Dump, PrintItems, PrintMembers;
    match v
    case Scalar(text) => ScanPlain(d, text);
    case Str(s) => ScanQuoted(d, s);
    case Arr(items) =>
      ScanItems(d, items);
      ScanThree(d, '[', PrintItems(items), ']', d);
    case Dict(members) =>
      ScanMembers(d + 1, members);
      ScanThree(d, '{', PrintMembers(members), '}', d + 1);
  }

  lemma ScanNothing(st: Lex)
    ensures Scan(st, "") == st
  {
  }

  lemma {:induction false} ScanItems(d: int, vs: seq<Value>)
    requires forall i :: 0 <= i < |vs| ==> WellFormed(vs[i])
    ensures Scan(Lex(d, false, false), PrintItems(vs)) == Lex(d, false, false)
    decreases vs, 0
  {
    hide Scan, Print, WellFormed;
    if vs == [] {
      ScanNothing(Lex(d, false, false));
    } else {
      var k := |vs| - 1;
      ScanPrint(d, vs[k]);
      ScanItems(d, vs[..k]);
      if k > 0 {
        ScanJoined(d, PrintItems(vs[..k]), ',', Print(vs[k]));
      }
    }
  }

  lemma {:induction false} ScanMembers(d: int, ms: seq<Member>)
    requires forall i :: 0 <= i < |ms| ==> WellFormed(ms[i].value)
    ensures Scan(Lex(d, false, false), PrintMembers(ms)) == Lex(d, false, false)
    decreases ms, 0
  {
    hide Scan, Print, WellFormed, Dump;
    if ms == [] {
      ScanNothing(Lex(d, false, false));
    } else {
      var k := |ms| - 1;
      ScanPrint(d, ms[k].value);
      ScanQuoted(d, ms[k].name);
      ScanJoined(d, Dump(ms[k].name), ':', Print(ms[k].value));
      ScanMembers(d, ms[..k]);
      if k > 0 {
        ScanJoined(d, PrintMembers(ms[..k]), ',', PrintMember(ms[k]));
      }
    }
  }

  /** A finished JSON object arrives unchanged, and reads back as the object. */
  lemma ObjectCall(s: State, before: seq<Event>, members: seq<Member>, after: seq<Event>, name: string)
    requires Inv(s) && Quiet(before) && Quiet(after) && WellFormed(Dict(members))
    requires LastText(before + after, ToolName) == Some(name)
    ensures var text := Print(Dict(members));
            && ReadValue(text) == Got(Dict(members), "")
            && Run(s, [OPEN] + (before + [Event(ToolArgs, text)] + after) + [CLOSE]).msg.calls
            == s.msg.calls + [ToolCall(TrimTrailing(name), text, ReportedId(before + after))]
  {
    var text := Print(Dict(members));
    assert text[0] == '{' && text[|text| - 1] == '}' && text + "" == text;
    hide Print, Scan, Run, LastText, IdText, WellFormed, Quiet;
    RoundTrip(Dict(members));
    TrimExactly(text, "");
    ScanPrint(0, Dict(members));
    assert Closers(0) == "";
    JsonCall(s, before, text, after, name);
  }
}
