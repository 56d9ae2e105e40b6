/** The MiniMax M3 mapper: arguments arrive as nested tags with white space and wrapper nodes
    between them; entries are collected from the tree and rendered to JSON as it grows. */
module MiniMax {
  import opened JsonText
  import opened JsonValue
  import opened Ast
  import opened Wrappers
  import opened ChatDiff
  import opened Visitor

  function Size(n: Node): (s: nat)
    ensures s > 0
    decreases n, 1
  {
    1 + SizeAll(n.children)
  }

  function SizeAll(cs: seq<Node>): nat
    decreases cs, 0
  {
    if cs == [] then 0 else Size(cs[0]) + SizeAll(cs[1..])
  }

  /** `minimax_m3_collect`: the outermost nodes with the given tag, in document order. */
  function Collect(cs: seq<Node>, tag: Label): (r: seq<Node>)
    ensures forall i :: 0 <= i < |r| ==> r[i].kind == tag && Size(r[i]) <= SizeAll(cs)
    decreases cs
  {
    if cs == [] then []
    else (if cs[0].kind == tag then [cs[0]] else Collect(cs[0].children, tag)) + Collect(cs[1..], tag)
  }

  predicate IsValueTag(k: Label) {
    k in {ArgValue, ArgStringValue, ArgObject, ArgArray}
  }

  /** `minimax_m3_value_of`: the first child that holds a value. */
  function ValueOf(cs: seq<Node>): (r: Option<Node>)
    ensures r.Some? ==> IsValueTag(r.value.kind) && Size(r.value) <= SizeAll(cs)
  {
    if cs == [] then None
    else if IsValueTag(cs[0].kind) then Some(cs[0])
    else ValueOf(cs[1..])
  }

  function ValueJson(v: Option<Node>, closed: bool): string
    decreases if v.Some? then Size(v.value) else 0, 3
  {
    match v
    case None => ""
    case Some(n) =>
      if n.kind == ArgObject then Container(n, true, closed)
      else if n.kind == ArgArray then Container(n, false, closed)
      else if n.kind == ArgStringValue then "\"" + Escape(n.text) + if closed then "\"" else ""
      else n.text
  }

  function MemberJson(n: Node): string
    decreases Size(n), 0
  {
    match FindByTag(n, ArgName)
    case None => ""
    case Some(name) => Dump(name.text) + ":" + ValueJson(ValueOf(n.children), !n.partial)
  }

  function EntryJson(n: Node, isObject: bool): string
    decreases Size(n), 1
  {
    if isObject then MemberJson(n) else ValueJson(ValueOf(n.children), !n.partial)
  }

  function EntryTag(isObject: bool): Label { if isObject then ToolArg else ArgItem }

  function Container(n: Node, isObject: bool, closed: bool): string
    decreases Size(n), 2
  {
    (if isObject then "{" else "[")
    + Join(Collect(n.children, EntryTag(isObject)), isObject, SizeAll(n.children))
    + (if closed then (if isObject then "}" else "]") else "")
  }

  /** Entries separated by commas; an entry with nothing to show yet is passed over. */
  function Join(entries: seq<Node>, isObject: bool, bound: nat): string
    requires forall i :: 0 <= i < |entries| ==> Size(entries[i]) <= bound
    decreases bound, 2, |entries|
  {
    if entries == [] then ""
    else
      var k := |entries| - 1;
      var front := Join(entries[..k], isObject, bound);
      var text := EntryJson(entries[k], isObject);
      if text == "" then front
      else if front == "" then text
      else front + "," + text
  }

  // ----- growing trees -----

  lemma PrependForest(a: seq<Node>, x: seq<Node>, y: seq<Node>)
    requires CutForest(x, y)
    ensures CutForest(a + x, a + y)
  {
    if x == y[..|x|] {
      assert a + x == (a + y)[..|a + x|];
    } else {
      var k := |x| - 1;
      assert (a + x)[..|a| + k] == a + x[..k] == a + y[..k] == (a + y)[..|a| + k];
    }
  }

  lemma AppendForest(x: seq<Node>, y: seq<Node>, more: seq<Node>)
    requires CutForest(x, y)
    ensures CutForest(x, y + more)
  {
    if x == y[..|x|] {
      assert x == (y + more)[..|x|];
    } else {
      assert (y + more)[..|x| - 1] == y[..|x| - 1];
    }
  }

  /** The entries of a cut tree are the entries of the tree, cut. */
  lemma {:induction false} CollectGrows(ts: seq<Node>, ns: seq<Node>, tag: Label)
    requires CutForest(ts, ns)
    ensures CutForest(Collect(ts, tag), Collect(ns, tag))
    decreases ns
  {
    if ts == [] {
    } else {
      CutFront(ts, ns);
      CollectGrows(ts[1..], ns[1..], tag);
      var more := Collect(ns[1..], tag);
      if ts[0] == ns[0] {
        PrependForest(if ns[0].kind == tag then [ns[0]] else Collect(ns[0].children, tag), Collect(ts[1..], tag), more);
      } else {
        assert ts[1..] == [] && Collect(ts[1..], tag) == [];
        if ns[0].kind == tag {
          var x := [ts[0]];
          assert Collect(ts, tag) == x;
          assert x[..0] == ([ns[0]] + more)[..0];
        } else {
          CollectGrows(ts[0].children, ns[0].children, tag);
          AppendForest(Collect(ts[0].children, tag), Collect(ns[0].children, tag), more);
          assert Collect(ts, tag) == Collect(ts[0].children, tag);
        }
      }
    }
  }

  lemma {:induction false} ValueOfGrows(ts: seq<Node>, ns: seq<Node>)
    requires CutForest(ts, ns)
    ensures ValueOf(ts).Some? ==> ValueOf(ns).Some? && Grows(ValueOf(ts).value, ValueOf(ns).value)
    decreases |ts|
  {
    if ts != [] {
      CutFront(ts, ns);
      if !IsValueTag(ts[0].kind) {
        ValueOfGrows(ts[1..], ns[1..]);
      }
    }
  }

  /** Leaving a value open only drops its closing character. */
  lemma OpenIsPrefix(n: Node, closed: bool)
    ensures ValueJson(Some(n), false) <= ValueJson(Some(n), closed)
  {
    hide Join, Collect;
  }

  /** Any cut of a value, whether or not the full value is closed. */
  lemma {:induction false} ValueGrows(t: Node, n: Node, closed: bool)
    requires Grows(t, n)
    ensures ValueJson(Some(t), false) <= ValueJson(Some(n), closed)
    decreases Size(n), 3
  {
    if t == n {
      OpenIsPrefix(n, closed);
    } else if n.kind == ArgObject || n.kind == ArgArray {
      ContainerGrows(t, n, n.kind == ArgObject, closed);
    } else if n.kind == ArgStringValue {
      EscapePrefix(t.text, n.text);
      AppendBoth("\"", Escape(t.text), Escape(n.text), if closed then "\"" else "");
    }
  }

  lemma {:induction false} ContainerGrows(t: Node, n: Node, isObject: bool, closed: bool)
    requires Cut(t, n)
    ensures Container(t, isObject, false) <= Container(n, isObject, closed)
    decreases Size(n), 2
  {
    hide Join, Collect, CutForest;
    var tag := EntryTag(isObject);
    var es, fs := Collect(t.children, tag), Collect(n.children, tag);
    CollectGrows(t.children, n.children, tag);
    JoinGrows(es, fs, isObject, SizeAll(t.children), SizeAll(n.children));
    AppendBoth(if isObject then "{" else "[",
               Join(es, isObject, SizeAll(t.children)), Join(fs, isObject, SizeAll(n.children)),
               if closed then (if isObject then "}" else "]") else "");
  }

  lemma {:induction false} EntryGrows(t: Node, n: Node, isObject: bool)
    requires Cut(t, n)
    ensures EntryJson(t, isObject) <= EntryJson(n, isObject)
    decreases Size(n), 1
  {
    hide ValueJson, CutForest;
    ValueOfGrows(t.children, n.children);
    FindAtomic(t, n, ArgName);
    var vt, vn := ValueOf(t.children), ValueOf(n.children);
    assert ValueJson(vt, false) <= ValueJson(vn, !n.partial) by {
      if vt.Some? {
        ValueGrows(vt.value, vn.value, !n.partial);
      } else {
        NothingYet();
      }
    }
    if isObject && FindByTag(t, ArgName).Some? {
      AppendBoth(Dump(FindByTag(n, ArgName).value.text) + ":", ValueJson(vt, false), ValueJson(vn, !n.partial), "");
    }
  }

  lemma NothingYet()
    ensures ValueJson(None, false) == ""
  {
  }

  /** More entries and a longer last entry only extend the joined text. */
  lemma CutShorter(es: seq<Node>, fs: seq<Node>)
    requires CutForest(es, fs) && es != [] && |es| < |fs|
    ensures CutForest(es, fs[..|fs| - 1])
  {
    var rest := fs[..|fs| - 1];
    assert rest[..|es|] == fs[..|es|] && rest[..|es| - 1] == fs[..|es| - 1];
  }

  lemma {:induction false} JoinGrows(es: seq<Node>, fs: seq<Node>, isObject: bool, b: nat, c: nat)
    requires CutForest(es, fs)
    requires forall i :: 0 <= i < |es| ==> Size(es[i]) <= b
    requires forall i :: 0 <= i < |fs| ==> Size(fs[i]) <= c
    ensures Join(es, isObject, b) <= Join(fs, isObject, c)
    decreases c, 2, |fs|
  {
    if es == [] {
    } else if |es| < |fs| {
      hide Join, Size, CutForest;
      var k := |fs| - 1;
      CutShorter(es, fs);
      JoinGrows(es, fs[..k], isObject, b, c);
      JoinSnoc(fs, isObject, c);
      PrefixTransitive(Join(es, isObject, b), Join(fs[..k], isObject, c), Join(fs, isObject, c));
    } else {
      var k := |fs| - 1;
      CutBack(es, fs);
      JoinBound(fs[..k], isObject, b, c);
      if es[k] != fs[k] {
        EntryGrows(es[k], fs[k], isObject);
      }
      JoinLast(es, fs, isObject, b, c);
    }
  }

  lemma JoinSnoc(fs: seq<Node>, isObject: bool, c: nat)
    requires fs != [] && forall i :: 0 <= i < |fs| ==> Size(fs[i]) <= c
    ensures Join(fs[..|fs| - 1], isObject, c) <= Join(fs, isObject, c)
  {
    hide EntryJson;
  }

  lemma JoinLast(es: seq<Node>, fs: seq<Node>, isObject: bool, b: nat, c: nat)
    requires |es| == |fs| > 0
    requires forall i :: 0 <= i < |es| ==> Size(es[i]) <= b
    requires forall i :: 0 <= i < |fs| ==> Size(fs[i]) <= c
    requires Join(es[..|es| - 1], isObject, b) == Join(fs[..|fs| - 1], isObject, c)
    requires EntryJson(es[|es| - 1], isObject) <= EntryJson(fs[|fs| - 1], isObject)
    ensures Join(es, isObject, b) <= Join(fs, isObject, c)
  {
    hide EntryJson;
    var front := Join(fs[..|fs| - 1], isObject, c);
    AppendBoth(front + ",", EntryJson(es[|es| - 1], isObject), EntryJson(fs[|fs| - 1], isObject), "");
  }

  /** The bound is only there for termination. */
  lemma {:induction false} JoinBound(es: seq<Node>, isObject: bool, b: nat, c: nat)
    requires forall i :: 0 <= i < |es| ==> Size(es[i]) <= b && Size(es[i]) <= c
    ensures Join(es, isObject, b) == Join(es, isObject, c)
    decreases |es|
  {
    hide EntryJson;
    if es != [] {
      JoinBound(es[..|es| - 1], isObject, b, c);
    }
  }

  // ----- finished trees -----

  /** `n` is a finished value node for `v`, whatever wrappers lie between the tags. */
  ghost predicate Represents(n: Node, v: Value)
    decreases v, 1
  {
    match v
    case Scalar(text) => n.kind == ArgValue && n.text == text
    case Str(s) => n.kind == ArgStringValue && n.text == s
    case Arr(items) => n.kind == ArgArray && RepresentsAll(Collect(n.children, ArgItem), items)
    case Dict(members) => n.kind == ArgObject && RepresentsMembers(Collect(n.children, ToolArg), members)
  }

  ghost predicate RepresentsAll(es: seq<Node>, vs: seq<Value>)
    decreases vs, 0
  {
    && |es| == |vs|
    && (vs != [] ==>
          var k := |vs| - 1;
          && RepresentsAll(es[..k], vs[..k])
          && !es[k].partial && ValueOf(es[k].children).Some? && Represents(ValueOf(es[k].children).value, vs[k]))
  }

  ghost predicate RepresentsMembers(es: seq<Node>, ms: seq<Member>)
    decreases ms, 0
  {
    && |es| == |ms|
    && (ms != [] ==>
          var k := |ms| - 1;
          && RepresentsMembers(es[..k], ms[..k])
          && FindByTag(es[k], ArgName).Some? && FindByTag(es[k], ArgName).value.text == ms[k].name
          && !es[k].partial && ValueOf(es[k].children).Some? && Represents(ValueOf(es[k].children).value, ms[k].value))
  }

  lemma {:induction false} RendersValue(n: Node, v: Value)
    requires Represents(n, v) && WellFormed(v)
    ensures ValueJson(Some(n), true) == Print(v)
    decreases v, 1
  {
    hide Join, Collect, PrintItems, PrintMembers, RepresentsAll, RepresentsMembers, Escape;
    match v
    case Scalar(_) =>
    case Str(_) =>
    case Arr(items) => RendersItems(Collect(n.children, ArgItem), items, SizeAll(n.children));
    case Dict(members) => RendersMembers(Collect(n.children, ToolArg), members, SizeAll(n.children));
  }

  lemma {:induction false} RendersItems(es: seq<Node>, vs: seq<Value>, b: nat)
    requires RepresentsAll(es, vs) && forall i :: 0 <= i < |vs| ==> WellFormed(vs[i])
    requires forall i :: 0 <= i < |es| ==> Size(es[i]) <= b
    ensures Join(es, false, b) == PrintItems(vs) && (vs != [] ==> PrintItems(vs) != "")
    decreases vs, 0
  {
    hide Print, ValueJson;
    if vs != [] {
      var k := |vs| - 1;
      RendersItems(es[..k], vs[..k], b);
      RendersValue(ValueOf(es[k].children).value, vs[k]);
      FirstChar(vs[k]);
      assert EntryJson(es[k], false) == Print(vs[k]);
    }
  }

  lemma JoinStep(es: seq<Node>, b: nat)
    requires es != [] && forall i :: 0 <= i < |es| ==> Size(es[i]) <= b
    ensures var k := |es| - 1;
            var front, text := Join(es[..k], true, b), EntryJson(es[k], true);
            Join(es, true, b) == if text == "" then front else if front == "" then text else front + "," + text
  {
    hide EntryJson, Size;
  }

  lemma PrintMembersStep(ms: seq<Member>)
    requires ms != []
    ensures var k := |ms| - 1;
            PrintMembers(ms) == if k == 0 then PrintMember(ms[0]) else PrintMembers(ms[..k]) + "," + PrintMember(ms[k])
    ensures PrintMember(ms[|ms| - 1]) != ""
  {
    hide Print;
  }

  lemma EntryRenders(e: Node, m: Member)
    requires FindByTag(e, ArgName).Some? && FindByTag(e, ArgName).value.text == m.name && !e.partial
    requires ValueOf(e.children).Some? && ValueJson(ValueOf(e.children), true) == Print(m.value)
    ensures EntryJson(e, true) == PrintMember(m)
  {
    hide Print, ValueJson, FindByTag, ValueOf;
  }

  lemma {:induction false} RendersMembers(es: seq<Node>, ms: seq<Member>, b: nat)
    requires RepresentsMembers(es, ms) && forall i :: 0 <= i < |ms| ==> WellFormed(ms[i].value)
    requires forall i :: 0 <= i < |es| ==> Size(es[i]) <= b
    ensures Join(es, true, b) == PrintMembers(ms) && (ms != [] ==> PrintMembers(ms) != "")
    decreases ms, 0
  {
    if ms != [] {
      hide Print, ValueJson, FindByTag, ValueOf, Join, EntryJson, PrintMember, PrintMembers, Size, Represents,
        WellFormed;
      var k := |ms| - 1;
      RendersMembers(es[..k], ms[..k], b);
      RendersValue(ValueOf(es[k].children).value, ms[k].value);
      EntryRenders(es[k], ms[k]);
      JoinStep(es, b);
      PrintMembersStep(ms);
    }
  }

  /** The arguments of a finished call are canonical JSON for the object the model wrote, and
      read back as that object. */
  lemma CallArguments(tool: Node, members: seq<Member>)
    requires RepresentsMembers(Collect(tool.children, ToolArg), members)
    requires forall i :: 0 <= i < |members| ==> WellFormed(members[i].value)
    ensures Container(tool, true, true) == Print(Dict(members))
    ensures ReadValue(Container(tool, true, true)) == Got(Dict(members), "")
  {
    hide Join, Collect, PrintMembers, RepresentsMembers;
    RendersMembers(Collect(tool.children, ToolArg), members, SizeAll(tool.children));
    RoundTrip(Dict(members));
  }

  // ----- messages -----

  function ToolOf(n: Node): Option<ToolCall> {
    match FindByTag(n, ToolName)
    case Some(name) => Some(ToolCall(name.text, Container(n, true, !n.partial), ""))
    case None => None
  }

  lemma ToolGrows(t: Node, n: Node)
    requires Cut(t, n)
    ensures CallGrows(ToolOf(t), ToolOf(n))
  {
    hide Container;
    FindAtomic(t, n, ToolName);
    ContainerGrows(t, n, true, !n.partial);
  }

  /** No delta ever fails and the client ends with the message of the last parse tree. */
  lemma Streams(m: Msg, forests: seq<seq<Node>>, cache: seq<string>, gen: nat -> string)
    requires forests != []
    requires forall i :: 0 < i < |forests| ==> CutForest(forests[i - 1], forests[i])
    ensures var ms := StampAll(Messages(ToolOf, m, forests), cache, gen);
            ReceiveAll(ms[0], ms) == Ok(ms[|ms| - 1])
  {
    hide ToolOf, Cut, CutForest;
    forall t, n | Cut(t, n) ensures CallGrows(ToolOf(t), ToolOf(n)) {
      ToolGrows(t, n);
    }
    StreamsToClient(ToolOf, m, forests, cache, gen);
  }
}
