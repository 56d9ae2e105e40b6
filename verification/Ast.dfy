/** Parse trees of the PEG engine, and what a tree looks like while its text is still arriving.
    The engine parses the whole input again whenever it grows. What it saw of an unfinished rule
    is a node marked partial, with less text and fewer children; only the last child can itself
    be unfinished, and whatever stands to its left is as it will be in the end. `Cut` says this
    for one node and `CutForest` for a list of them, for any amount of missing input at once. */
module Ast {
  import opened Wrappers

  /** A node is made by a grammar rule or by a tag, never by both; only the names that the
      mappers look at are told apart. */
  datatype Label =
    | Plain
    | Reasoning | Content
    | Tool | ToolOpen | ToolClose | ToolId | ToolName | ToolArgs
    | ToolArg | ArgOpen | ArgClose | ArgName | ArgValue | ArgStringValue
    | ArgObject | ArgArray | ArgItem
    | GemmaNumber | GemmaBool | GemmaNull | GemmaStringContent | GemmaString
    | GemmaArray | GemmaDictKeyName | GemmaDictKey | GemmaDictKv | GemmaDict | GemmaValue

  datatype Node = Node(kind: Label, text: string, children: seq<Node>, partial: bool)

  /** Atomic parsers give no node at all until they have matched completely. */
  predicate Atomic(l: Label) {
    l in {ToolOpen, ToolClose, ToolId, ToolName, ArgOpen, ArgClose, ArgName}
  }

  /** `t` is `n` read from less input: its text and its children break off early, the last
      child may itself be cut, everything to the left is as in `n`, and `t` is marked partial. */
  ghost predicate Cut(t: Node, n: Node)
    decreases n
  {
    && t.kind == n.kind && !Atomic(n.kind)
    && t.text <= n.text
    && t.partial
    && CutForest(t.children, n.children)
  }

  ghost predicate CutForest(ts: seq<Node>, ns: seq<Node>)
    decreases ns
  {
    && |ts| <= |ns|
    && (|| ts == ns[..|ts|]
        || (ts != [] && ts[..|ts| - 1] == ns[..|ts| - 1] && Cut(ts[|ts| - 1], ns[|ts| - 1])))
  }

  /** One step of a stream: nothing new in this subtree, or a longer reading of it. */
  ghost predicate Grows(t: Node, n: Node) {
    t == n || Cut(t, n)
  }

  lemma CutFront(ts: seq<Node>, ns: seq<Node>)
    requires CutForest(ts, ns) && ts != []
    ensures Grows(ts[0], ns[0])
    ensures |ts| > 1 ==> ts[0] == ns[0]
    ensures CutForest(ts[1..], ns[1..])
    ensures ts[0] != ns[0] ==> |ts| == 1
  {
    var k := |ts| - 1;
    if ts != ns[..|ts|] && k > 0 {
      assert ts[0] == ts[..k][0] == ns[..k][0];
      assert ts[1..][..k - 1] == ts[..k][1..] == ns[..k][1..] == ns[1..][..k - 1];
    } else if ts == ns[..|ts|] {
      assert ts[1..] == ns[1..][..|ts| - 1];
    }
  }

  lemma CutBack(ts: seq<Node>, ns: seq<Node>)
    requires CutForest(ts, ns) && ts != []
    ensures var k := |ts| - 1; ts[..k] == ns[..k] && Grows(ts[k], ns[k])
  {
    var k := |ts| - 1;
    if ts == ns[..|ts|] {
      assert ts[..k] == ns[..k];
    }
  }

  /** `find_by_tag`: first match in document order, at most `depth` levels down. */
  function Find(cs: seq<Node>, tag: Label, depth: nat): (r: Option<Node>)
    ensures r.Some? ==> r.value.kind == tag
    decreases depth, |cs|
  {
    if cs == [] then None
    else if cs[0].kind == tag then Some(cs[0])
    else
      var below := if depth > 1 then Find(cs[0].children, tag, depth - 1) else None;
      if below.Some? then below else Find(cs[1..], tag, depth)
  }

  const MAX_DEPTH: nat := 3

  function FindByTag(n: Node, tag: Label): (r: Option<Node>)
    ensures r.Some? ==> r.value.kind == tag
  {
    Find(n.children, tag, MAX_DEPTH)
  }

  /** What was found early is found again, as the same node or a longer reading of it. */
  lemma {:induction false} FindGrows(ts: seq<Node>, ns: seq<Node>, tag: Label, depth: nat)
    requires CutForest(ts, ns)
    ensures Find(ts, tag, depth).Some? ==>
              Find(ns, tag, depth).Some? && Grows(Find(ts, tag, depth).value, Find(ns, tag, depth).value)
    decreases depth, |ts|
  {
    if ts != [] {
      CutFront(ts, ns);
      assert ns != [] && ts[0].kind == ns[0].kind;
      assert ts[0] != ns[0] ==> CutForest(ts[0].children, ns[0].children);
      hide Cut, CutForest;
      if ts[0].kind != tag {
        if depth > 1 && ts[0] != ns[0] {
          FindGrows(ts[0].children, ns[0].children, tag, depth - 1);
        }
        FindGrows(ts[1..], ns[1..], tag, depth);
      }
    }
  }

  lemma FindAtomic(t: Node, n: Node, tag: Label)
    requires Cut(t, n) && Atomic(tag)
    ensures FindByTag(t, tag).Some? ==> FindByTag(n, tag) == FindByTag(t, tag)
  {
    FindGrows(t.children, n.children, tag, MAX_DEPTH);
  }
}
