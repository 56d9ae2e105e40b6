/** The Gemma 4 mapper: tool-call arguments are rendered to JSON straight from the parse tree,
    again and again while the tree is still growing. */
module Gemma4 {
  import opened JsonText
  import opened JsonValue
  import opened Ast
  import opened Wrappers
  import opened ChatDiff
  import opened Visitor

  // ----- rendering -----

  /** `gemma4_to_json`. */
  function Render(n: Node): string
    decreases n, 1
  {
    if n.text == "" then ""
    else match n.kind
      case GemmaNumber | GemmaBool | GemmaNull => n.text
      case GemmaStringContent => Escape(n.text)
      case GemmaString =>
        "\"" + if n.children == [] then ""
               else Render(n.children[0]) + if n.partial then "" else "\""
      case GemmaArray => "[" + Items(n.children) + if n.partial then "" else "]"
      case GemmaDictKeyName => n.text
      case GemmaDictKey =>
        "\"" + (if n.children == [] then "" else Escape(Render(n.children[0]))) + if n.partial then "" else "\":"
      case GemmaDictKv => All(n.children)
      case GemmaDict => "{" + Items(n.children) + if n.partial then "" else "}"
      case GemmaValue => if n.children == [] then "" else Render(n.children[0])
      case _ => ""
  }

  /** Children separated by commas. */
  function Items(cs: seq<Node>): string
    decreases cs, 0
  {
    if cs == [] then ""
    else if |cs| == 1 then Render(cs[0])
    else Items(cs[..|cs| - 1]) + "," + Render(cs[|cs| - 1])
  }

  function All(cs: seq<Node>): string
    decreases cs, 0
  {
    if cs == [] then "" else All(cs[..|cs| - 1]) + Render(cs[|cs| - 1])
  }

  // ----- a cut tree renders to a prefix -----

  /** For every tree, well formed or not: cutting it anywhere on its right edge leaves a
      rendering that the full rendering continues. */
  lemma StringPrefix(t: Node, n: Node)
    requires t.kind == n.kind == GemmaString && t.text != "" && n.text != "" && t.partial
    requires t.children != [] ==> n.children != [] && Render(t.children[0]) <= Render(n.children[0])
    ensures Render(t) <= Render(n)
  {
    if t.children != [] {
      var x, y, end := Render(t.children[0]), Render(n.children[0]), if n.partial then "" else "\"";
      assert Render(t) == "\"" + (x + "") && Render(n) == "\"" + (y + end);
      hide Render;
      AppendBoth("\"", x, y, end);
      Assoc("\"", y, end);
      assert x + "" == x;
    }
  }

  lemma KeyPrefix(t: Node, n: Node)
    requires t.kind == n.kind == GemmaDictKey && t.text != "" && n.text != "" && t.partial
    requires t.children != [] ==> n.children != [] && Render(t.children[0]) <= Render(n.children[0])
    ensures Render(t) <= Render(n)
  {
    hide Escape;
    if t.children != [] {
      EscapePrefix(Render(t.children[0]), Render(n.children[0]));
      var x, y, end := Escape(Render(t.children[0])), Escape(Render(n.children[0])), if n.partial then "" else "\":";
      assert Render(t) == "\"" + x + "" && Render(n) == "\"" + y + end;
      hide Render;
      AppendBoth("\"", x, y, end);
    }
  }

  lemma ContainerPrefix(t: Node, n: Node)
    requires t.kind == n.kind && n.kind in {GemmaArray, GemmaDict} && t.text != "" && n.text != "" && t.partial
    requires Items(t.children) <= Items(n.children)
    ensures Render(t) <= Render(n)
  {
    hide Items;
    AppendBoth("[", Items(t.children), Items(n.children), if n.partial then "" else "]");
    AppendBoth("{", Items(t.children), Items(n.children), if n.partial then "" else "}");
  }

  lemma InnerPrefix(t: Node, n: Node)
    requires t.kind == n.kind && n.kind in {GemmaDictKv, GemmaValue} && t.text != "" && n.text != ""
    requires n.kind == GemmaDictKv ==> All(t.children) <= All(n.children)
    requires n.kind == GemmaValue && t.children != [] ==>
               n.children != [] && Render(t.children[0]) <= Render(n.children[0])
    ensures Render(t) <= Render(n)
  {
    hide All;
  }

  /** Kinds whose text is rendered, and those that are not rendered at all. */
  lemma LeafPrefix(t: Node, n: Node)
    requires t.kind == n.kind && t.text <= n.text
    requires n.kind !in {GemmaString, GemmaArray, GemmaDictKey, GemmaDictKv, GemmaDict, GemmaValue}
    ensures Render(t) <= Render(n)
  {
    hide Escape, Items, All;
    EscapePrefix(t.text, n.text);
  }

  lemma RenderNothing(t: Node)
    requires t.text == ""
    ensures Render(t) == ""
  {
  }

  lemma {:induction false} CutRendersPrefix(t: Node, n: Node)
    requires Cut(t, n)
    ensures Render(t) <= Render(n)
    decreases n, 1
  {
    CutSizes(t.children, n.children);
    hide Render, Escape, Items, All, CutForest;
    if t.text == "" {
      RenderNothing(t);
    } else {
      match n.kind
      case GemmaString =>
        FirstRenders(t.children, n.children);
        StringPrefix(t, n);
      case GemmaDictKey =>
        FirstRenders(t.children, n.children);
        KeyPrefix(t, n);
      case GemmaArray | GemmaDict =>
        CutItems(t.children, n.children);
        ContainerPrefix(t, n);
      case GemmaDictKv =>
        CutAll(t.children, n.children);
        InnerPrefix(t, n);
      case GemmaValue =>
        FirstRenders(t.children, n.children);
        InnerPrefix(t, n);
      case _ => LeafPrefix(t, n);
    }
  }

  lemma CutSizes(ts: seq<Node>, ns: seq<Node>)
    requires CutForest(ts, ns)
    ensures |ts| <= |ns|
  {
  }

  lemma {:induction false} FirstRenders(ts: seq<Node>, ns: seq<Node>)
    requires CutForest(ts, ns)
    ensures ts != [] ==> Render(ts[0]) <= Render(ns[0])
    decreases ns, 0
  {
    if ts != [] {
      CutFront(ts, ns);
      if ts[0] != ns[0] { CutRendersPrefix(ts[0], ns[0]); }
    }
  }

  lemma LastRenders(ts: seq<Node>, ns: seq<Node>)
    requires CutForest(ts, ns) && ts != []
    ensures ts[..|ts| - 1] == ns[..|ts| - 1] && Render(ts[|ts| - 1]) <= Render(ns[|ts| - 1])
    decreases ns, 0
  {
    CutBack(ts, ns);
    var k := |ts| - 1;
    if ts[k] != ns[k] { CutRendersPrefix(ts[k], ns[k]); }
  }

  lemma {:induction false} ItemsPrefix(cs: seq<Node>, k: nat)
    requires k <= |cs|
    ensures Items(cs[..k]) <= Items(cs)
    decreases |cs|
  {
    if k == |cs| {
      assert cs[..k] == cs;
    } else if |cs| == 1 {
    } else {
      ItemsPrefix(cs[..|cs| - 1], k);
      assert cs[..|cs| - 1][..k] == cs[..k];
    }
  }

  lemma {:induction false} AllPrefix(cs: seq<Node>, k: nat)
    requires k <= |cs|
    ensures All(cs[..k]) <= All(cs)
    decreases |cs|
  {
    if k == |cs| {
      assert cs[..k] == cs;
    } else {
      AllPrefix(cs[..|cs| - 1], k);
      assert cs[..|cs| - 1][..k] == cs[..k];
    }
  }

  lemma CutItems(ts: seq<Node>, ns: seq<Node>)
    requires CutForest(ts, ns)
    ensures Items(ts) <= Items(ns)
    decreases ns, 1
  {
    if ts != [] {
      LastRenders(ts, ns);
      var k := |ts| - 1;
      var front := ns[..k + 1];
      assert front[..k] == ns[..k];
      if k > 0 {
        AppendBoth(Items(ns[..k]) + ",", Render(ts[k]), Render(ns[k]), "");
      }
      assert Items(ts) <= Items(front);
      ItemsPrefix(ns, k + 1);
    }
  }

  lemma CutAll(ts: seq<Node>, ns: seq<Node>)
    requires CutForest(ts, ns)
    ensures All(ts) <= All(ns)
    decreases ns, 1
  {
    if ts != [] {
      LastRenders(ts, ns);
      var k := |ts| - 1;
      var front := ns[..k + 1];
      assert front[..k] == ns[..k];
      AppendBoth(All(ns[..k]), Render(ts[k]), Render(ns[k]), "");
      assert All(ts) <= All(front);
      AllPrefix(ns, k + 1);
    }
  }

  // ----- a complete tree renders to the value it stands for -----

  predicate Complete(n: Node, k: Label) {
    n.kind == k && !n.partial && n.text != ""
  }

  /** `n` is the finished `gemma4-value` tree that the grammar builds for `v`. */
  ghost predicate Represents(n: Node, v: Value)
    decreases v, 2
  {
    Complete(n, GemmaValue) && |n.children| == 1 && RepresentsBare(n.children[0], v)
  }

  /** The same without the `gemma4-value` node around it; the arguments of a call are such a tree. */
  ghost predicate RepresentsBare(c: Node, v: Value)
    decreases v, 1
  {
    match v
    case Scalar(text) =>
      (Complete(c, GemmaNumber) || Complete(c, GemmaBool) || Complete(c, GemmaNull)) && c.text == text
    case Str(s) =>
      && Complete(c, GemmaString) && |c.children| == 1
      && c.children[0].kind == GemmaStringContent && c.children[0].text == s
    case Arr(items) => Complete(c, GemmaArray) && RepresentsAll(c.children, items)
    case Dict(members) => Complete(c, GemmaDict) && RepresentsMembers(c.children, members)
  }

  ghost predicate RepresentsAll(cs: seq<Node>, vs: seq<Value>)
    decreases vs, 0
  {
    && |cs| == |vs|
    && (vs != [] ==>
          var k := |vs| - 1;
          RepresentsAll(cs[..k], vs[..k]) && Represents(cs[k], vs[k]))
  }

  ghost predicate RepresentsMembers(cs: seq<Node>, ms: seq<Member>)
    decreases ms, 0
  {
    && |cs| == |ms|
    && (ms != [] ==>
          var k := |ms| - 1;
          && RepresentsMembers(cs[..k], ms[..k])
          && RepresentsMember(cs[k], ms[k].name) && Represents(cs[k].children[1], ms[k].value))
  }

  ghost predicate RepresentsMember(c: Node, name: string) {
    && Complete(c, GemmaDictKv) && |c.children| == 2
    && Complete(c.children[0], GemmaDictKey) && |c.children[0].children| == 1
    && Complete(c.children[0].children[0], GemmaDictKeyName) && c.children[0].children[0].text == name
  }

  lemma {:induction false} RendersValue(n: Node, v: Value)
    requires Represents(n, v)
    ensures Render(n) == Print(v)
    decreases v, 2
  {
    hide RepresentsBare, Print, Render;
    RendersBare(n.children[0], v);
    ValueRenders(n);
  }

  lemma ValueRenders(n: Node)
    requires n.kind == GemmaValue && n.text != "" && n.children != []
    ensures Render(n) == Render(n.children[0])
  {
    hide Items, All, Escape;
  }

  lemma {:induction false} RendersBare(c: Node, v: Value)
    requires RepresentsBare(c, v)
    ensures Render(c) == Print(v)
    decreases v, 1
  {
    hide Items, PrintItems, PrintMembers, RepresentsAll, RepresentsMembers, Escape;
    match v
    case Scalar(_) =>
    case Str(s) => RendersString(c, s);
    case Arr(items) => RendersItems(c.children, items);
    case Dict(members) => RendersMembers(c.children, members);
  }

  lemma RendersString(c: Node, s: string)
    requires Complete(c, GemmaString) && |c.children| == 1
    requires c.children[0].kind == GemmaStringContent && c.children[0].text == s
    ensures Render(c) == Dump(s)
  {
    assert Render(c.children[0]) == Escape(s);
  }

  lemma {:induction false} RendersItems(cs: seq<Node>, vs: seq<Value>)
    requires RepresentsAll(cs, vs)
    ensures Items(cs) == PrintItems(vs)
    decreases vs, 0
  {
    if vs != [] {
      var k := |vs| - 1;
      RendersItems(cs[..k], vs[..k]);
      RendersValue(cs[k], vs[k]);
    }
  }

  lemma {:induction false} RendersMembers(cs: seq<Node>, ms: seq<Member>)
    requires RepresentsMembers(cs, ms)
    ensures Items(cs) == PrintMembers(ms)
    decreases ms, 0
  {
    if ms != [] {
      var k := |ms| - 1;
      RendersMembers(cs[..k], ms[..k]);
      RendersValue(cs[k].children[1], ms[k].value);
      RendersMember(cs[k], ms[k].name, ms[k].value);
    }
  }

  lemma RendersMember(c: Node, name: string, v: Value)
    requires RepresentsMember(c, name) && Render(c.children[1]) == Print(v)
    ensures Render(c) == PrintMember(Member(name, v))
  {
    hide Print;
    var key := c.children[0];
    assert c.children[..1] == [key] && [key][..0] == [];
    assert All([key]) == All([]) + Render(key) == Render(key);
    assert Render(c) == All(c.children) == Render(key) + Render(c.children[1]);
    RendersKey(key, name);
  }

  lemma RendersKey(key: Node, name: string)
    requires Complete(key, GemmaDictKey) && |key.children| == 1
    requires Complete(key.children[0], GemmaDictKeyName) && key.children[0].text == name
    ensures Render(key) == Dump(name) + ":"
  {
    assert Render(key.children[0]) == name;
  }

  /** A finished value can be read back from the text that was streamed to the client. */
  lemma RenderedValueReads(n: Node, v: Value)
    requires Represents(n, v) && WellFormed(v)
    ensures ReadValue(Render(n)) == Got(v, "")
  {
    RendersValue(n, v);
    RoundTrip(v);
  }

  // ----- messages -----

  /** The call a `tool` node stands for, once its name is complete and its arguments have begun. */
  function ToolOf(n: Node): Option<ToolCall> {
    match (FindByTag(n, ToolName), FindByTag(n, ToolArgs))
    case (Some(name), Some(args)) =>
      if name.partial then None
      else Some(ToolCall(name.text, if args.children == [] then "" else Render(args.children[0]), ""))
    case _ => None
  }

  /** A tool call that was shown early is shown again with the same name and longer arguments. */
  lemma ToolGrows(t: Node, n: Node)
    requires Cut(t, n)
    ensures CallGrows(ToolOf(t), ToolOf(n))
  {
    hide Render;
    FindAtomic(t, n, ToolName);
    FindGrows(t.children, n.children, ToolArgs, MAX_DEPTH);
    if ToolOf(t).Some? {
      var at, an := FindByTag(t, ToolArgs).value, FindByTag(n, ToolArgs).value;
      if at != an {
        FirstRenders(at.children, an.children);
      }
    }
  }

  /** No delta ever fails and the client ends with the message of the last parse tree. */
  lemma Streams(m: Msg, forests: seq<seq<Node>>, cache: seq<string>, gen: nat -> string)
    requires forests != []
    requires forall i :: 0 < i < |forests| ==> CutForest(forests[i - 1], forests[i])
    ensures var ms := StampAll(Messages(ToolOf, m, forests), cache, gen);
            ReceiveAll(ms[0], ms) == Ok(ms[|ms| - 1])
  {
    hide ToolOf, Cut, CutForest;
    forall t, n | Cut(t, n) ensures CallGrows(ToolOf(t), ToolOf(n)) {
      ToolGrows(t, n);
    }
    StreamsToClient(ToolOf, m, forests, cache, gen);
  }
}
