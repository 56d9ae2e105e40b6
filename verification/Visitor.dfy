/** The tree walk shared by the Gemma 4 and MiniMax M3 mappers. */
module Visitor {
  import opened JsonText
  import opened Ast
  import opened AstWalk
  import opened Wrappers
  import opened ChatDiff

  // Text nodes are appended, a `tool` node becomes one call, everything else is walked through. The two mappers
  // differ only in how a `tool` node is read.

  type ToolReader = Node -> Option<ToolCall>

  function Visit(read: ToolReader, m: Msg, n: Node): Msg
    decreases n, 1
  {
    match n.kind
    case Reasoning => m.(reasoning := m.reasoning + n.text)
    case Content => m.(content := m.content + n.text)
    case Tool =>
      (match read(n)
       case Some(call) => m.(calls := m.calls + [call])
       case None => m)
    case _ => VisitAll(read, m, n.children)
  }

  function VisitAll(read: ToolReader, m: Msg, cs: seq<Node>): Msg
    decreases cs, 0
  {
    if cs == [] then m else VisitAll(read, Visit(read, m, cs[0]), cs[1..])
  }

  // ----- what the walk makes of a forest -----

  predicate Marked(k: Label) { k == Reasoning || k == Content || k == Tool }

  /** The outermost marked nodes, in document order; what is inside them is not looked at. */
  function Shown(cs: seq<Node>): seq<Node>
    decreases cs
  {
    if cs == [] then []
    else (if Marked(cs[0].kind) then [cs[0]] else Shown(cs[0].children)) + Shown(cs[1..])
  }

  function CallOf(read: ToolReader, n: Node): seq<ToolCall> {
    if n.kind == Tool && read(n).Some? then [read(n).value] else []
  }

  /** The calls that tool nodes are read as, in order. */
  function CallsOf(read: ToolReader, ns: seq<Node>): seq<ToolCall> {
    if ns == [] then [] else CallOf(read, ns[0]) + CallsOf(read, ns[1..])
  }

  lemma {:induction false} CallsOfConcat(read: ToolReader, a: seq<Node>, b: seq<Node>)
    ensures CallsOf(read, a + b) == CallsOf(read, a) + CallsOf(read, b)
    decreases |a|
  {
    if a == [] {
      assert a + b == b;
    } else {
      CallsOfConcat(read, a[1..], b);
      assert (a + b)[1..] == a[1..] + b && (a + b)[0] == a[0];
    }
  }

  /** A message with more text and calls behind it. */
  function Added(read: ToolReader, m: Msg, ns: seq<Node>): Msg {
    Msg(m.reasoning + TextOf(ns, Reasoning), m.content + TextOf(ns, Content), m.calls + CallsOf(read, ns))
  }

  lemma AddedConcat(read: ToolReader, m: Msg, a: seq<Node>, b: seq<Node>)
    ensures Added(read, m, a + b) == Added(read, Added(read, m, a), b)
  {
    hide TextOf, CallsOf;
    TextOfConcat(a, b, Reasoning);
    TextOfConcat(a, b, Content);
    CallsOfConcat(read, a, b);
    Assoc(m.reasoning, TextOf(a, Reasoning), TextOf(b, Reasoning));
    Assoc(m.content, TextOf(a, Content), TextOf(b, Content));
    assert m.calls + (CallsOf(read, a) + CallsOf(read, b)) == m.calls + CallsOf(read, a) + CallsOf(read, b);
  }

  lemma AddedOne(read: ToolReader, m: Msg, n: Node)
    requires Marked(n.kind)
    ensures Added(read, m, [n]) == Visit(read, m, n)
  {
    assert [n][1..] == [];
    TextOfOne(n, Reasoning);
    TextOfOne(n, Content);
    assert m.reasoning + "" == m.reasoning && m.content + "" == m.content && m.calls + [] == m.calls;
    assert CallsOf(read, [n]) == CallOf(read, n) + [] == CallOf(read, n);
  }

  lemma AddedNone(read: ToolReader, m: Msg)
    ensures Added(read, m, []) == m
  {
  }

  /** The message of a forest: its content is the content before and the texts of its content nodes in
      document order, likewise its reasoning, and its calls are those of its tool nodes. */
  lemma {:induction false} VisitShows(read: ToolReader, m: Msg, cs: seq<Node>)
    ensures VisitAll(read, m, cs) == Added(read, m, Shown(cs))
    decreases cs
  {
    hide Added, Visit;
    if cs == [] {
      AddedNone(read, m);
    } else {
      var n := cs[0];
      var front := if Marked(n.kind) then [n] else Shown(n.children);
      assert Visit(read, m, n) == Added(read, m, front) by {
        if Marked(n.kind) {
          AddedOne(read, m, n);
        } else {
          VisitShows(read, m, n.children);
          VisitInner(read, m, n);
        }
      }
      VisitShows(read, Visit(read, m, n), cs[1..]);
      AddedConcat(read, m, front, Shown(cs[1..]));
    }
  }

  /** The tool nodes of a list, in order. */
  function Tools(ns: seq<Node>): seq<Node> {
    if ns == [] then [] else (if ns[0].kind == Tool then [ns[0]] else []) + Tools(ns[1..])
  }

  lemma {:induction false} CallsAre(read: ToolReader, ns: seq<Node>, calls: seq<ToolCall>)
    requires |Tools(ns)| == |calls| && forall i :: 0 <= i < |calls| ==> read(Tools(ns)[i]) == Some(calls[i])
    ensures CallsOf(read, ns) == calls
    decreases |ns|
  {
    if ns != [] {
      var rest := ns[1..];
      if ns[0].kind == Tool {
        assert Tools(ns)[0] == ns[0] && Tools(ns)[1..] == Tools(rest);
        forall i | 0 <= i < |calls| - 1 ensures read(Tools(rest)[i]) == Some(calls[1..][i]) {
          assert Tools(ns)[i + 1] == Tools(rest)[i];
        }
        CallsAre(read, rest, calls[1..]);
        assert calls == [calls[0]] + calls[1..];
      } else {
        assert Tools(ns) == Tools(rest);
        CallsAre(read, rest, calls);
      }
    }
  }

  /** If every tool node of a forest is read as a call, these are the calls of its message, in order. */
  lemma VisitCalls(read: ToolReader, m: Msg, forest: seq<Node>, calls: seq<ToolCall>)
    requires var ns := Tools(Shown(forest));
             |ns| == |calls| && forall i :: 0 <= i < |calls| ==> read(ns[i]) == Some(calls[i])
    ensures VisitAll(read, m, forest).calls == m.calls + calls
  {
    hide VisitAll, CallsOf, Shown, Tools;
    VisitShows(read, m, forest);
    CallsAre(read, Shown(forest), calls);
  }

  lemma VisitInner(read: ToolReader, m: Msg, n: Node)
    requires !Marked(n.kind)
    ensures Visit(read, m, n) == VisitAll(read, m, n.children)
  {
    hide VisitAll;
  }

  /** A call that was shown early is shown again with the same name and longer arguments. */
  predicate CallGrows(early: Option<ToolCall>, late: Option<ToolCall>) {
    early.Some? ==>
      late.Some? && early.value.name == late.value.name && early.value.arguments <= late.value.arguments
  }

  ghost predicate Monotone(read: ToolReader) {
    forall t, n :: Cut(t, n) ==> CallGrows(read(t), read(n))
  }

  ghost predicate Appends(m: Msg, m': Msg) {
    m.reasoning <= m'.reasoning && m.content <= m'.content && m.calls <= m'.calls
  }

  lemma {:induction false} VisitAppends(read: ToolReader, m: Msg, n: Node)
    ensures Appends(m, Visit(read, m, n))
    decreases n, 1
  {
    hide VisitAll;
    if n.kind != Reasoning && n.kind != Content && n.kind != Tool {
      VisitAllAppends(read, m, n.children);
    }
  }

  lemma {:induction false} VisitAllAppends(read: ToolReader, m: Msg, cs: seq<Node>)
    ensures Appends(m, VisitAll(read, m, cs))
    decreases cs, 0
  {
    if cs != [] {
      VisitAppends(read, m, cs[0]);
      VisitAllAppends(read, Visit(read, m, cs[0]), cs[1..]);
    }
  }

  lemma {:induction false} VisitGrows(read: ToolReader, m: Msg, t: Node, n: Node)
    requires Monotone(read) && Cut(t, n)
    ensures Grew(Visit(read, m, t), Visit(read, m, n))
    decreases n, 1
  {
    hide VisitAll;
    if n.kind == Reasoning {
      AppendBoth(m.reasoning, t.text, n.text, "");
    } else if n.kind == Content {
      AppendBoth(m.content, t.text, n.text, "");
    } else if n.kind == Tool {
      assert CallGrows(read(t), read(n));
    } else {
      VisitAllGrows(read, m, t.children, n.children);
    }
  }

  lemma {:induction false} VisitAllGrows(read: ToolReader, m: Msg, ts: seq<Node>, ns: seq<Node>)
    requires Monotone(read) && CutForest(ts, ns)
    ensures Grew(VisitAll(read, m, ts), VisitAll(read, m, ns))
    decreases ns, 0
  {
    hide Visit;
    if ts == [] {
      VisitAllAppends(read, m, ns);
    } else {
      CutFront(ts, ns);
      if ts[0] == ns[0] {
        VisitAllGrows(read, Visit(read, m, ts[0]), ts[1..], ns[1..]);
      } else {
        VisitGrows(read, m, ts[0], ns[0]);
        VisitAllAppends(read, Visit(read, m, ns[0]), ns[1..]);
        GrewTransitive(Visit(read, m, ts[0]), Visit(read, m, ns[0]), VisitAll(read, m, ns));
        assert ts[1..] == [];
      }
    }
  }

  /** The message read from each of a sequence of forests. */
  function Messages(read: ToolReader, m: Msg, forests: seq<seq<Node>>): (ms: seq<Msg>)
    ensures |ms| == |forests| && forall i :: 0 <= i < |ms| ==> ms[i] == VisitAll(read, m, forests[i])
  {
    if forests == [] then [] else [VisitAll(read, m, forests[0])] + Messages(read, m, forests[1..])
  }

  /** For every stream of growing parse trees and every monotone reading of tool nodes: no
      delta ever fails and the client ends with exactly the message of the last tree. */
  lemma StreamsToClient(read: ToolReader, m: Msg, forests: seq<seq<Node>>, cache: seq<string>, gen: nat -> string)
    requires Monotone(read) && forests != []
    requires forall i :: 0 < i < |forests| ==> CutForest(forests[i - 1], forests[i])
    ensures var ms := StampAll(Messages(read, m, forests), cache, gen);
            ReceiveAll(ms[0], ms) == Ok(ms[|ms| - 1])
  {
    hide VisitAll, Grew, CutForest, Extends;
    var readings := Messages(read, m, forests);
    forall i | 0 < i < |readings| ensures Grew(readings[i - 1], readings[i]) {
      VisitAllGrows(read, m, forests[i - 1], forests[i]);
    }
    StampedStream(readings, cache, gen);
    StreamDelivered(StampAll(readings, cache, gen));
  }
}
